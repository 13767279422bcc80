/**
 What one process comes to when it is the only one moving: it creates the whole set in a directory
 that holds none of it, leaves a whole set alone, and refuses a part of one.
 */
module FirstRun {
  import opened Text
  import opened KeyMaterial

  /** The process starts and takes `n` steps. */
  function Alone(p: nat, n: nat): seq<Event>
  {
    [Start(p)] + seq(n, _ => Advance(p))
  }

  function Stepper(plan: Plan): (State, Event) -> State
  {
    (s: State, e: Event) => Step(plan, s, e)
  }

  function With(s: State, p: nat, l: Local): State
  {
    s.(procs := s.procs[p := l])
  }

  function After(plan: Plan, s: State, p: nat, n: nat): State
  {
    Fold(Stepper(plan), s, Alone(p, n))
  }

  lemma {:induction false} RunIsFold(plan: Plan, s: State, es: seq<Event>)
    ensures Run(plan, s, es) == Fold(Stepper(plan), s, es)
  {
    if es != [] {
      RunIsFold(plan, s, Init(es));
    }
  }

  lemma Starts(plan: Plan, s: State, p: nat)
    requires p !in s.procs && p !in s.files.Values
    ensures After(plan, s, p, 0) == With(s, p, Checking([]))
  {
    FoldNext(Stepper(plan), s, [], Start(p));
    assert Alone(p, 0) == [] + [Start(p)];
  }

  lemma Again(plan: Plan, s: State, p: nat, n: nat, t: State)
    requires After(plan, s, p, n) == t
    ensures After(plan, s, p, n + 1) == Step(plan, t, Advance(p))
  {
    assert Alone(p, n + 1) == Alone(p, n) + [Advance(p)];
    FoldNext(Stepper(plan), s, Alone(p, n), Advance(p));
  }

  /** A process after `n` looks at a directory that stays as it is. */
  function Looked(plan: Plan, files: map<nat, nat>, n: nat): Local
  {
    if n == 0 then Checking([])
    else
      var l := Looked(plan, files, n - 1);
      if l.Checking? then AfterCheck(plan, files, l.seen) else l
  }

  lemma {:induction false} LookedKind(plan: Plan, files: map<nat, nat>, n: nat)
    ensures !Looked(plan, files, n).Fill? && !Looked(plan, files, n).Dead?
  {
    if n > 0 {
      LookedKind(plan, files, n - 1);
    }
  }

  lemma LookStep(plan: Plan, s: State, p: nat, l: Local, next: Local)
    requires !l.Create? && !l.Fill? && next == if l.Checking? then AfterCheck(plan, s.files, l.seen) else l
    ensures Step(plan, With(s, p, l), Advance(p)) == With(s, p, next)
  {
    assert s.procs[p := l][p := next] == s.procs[p := next];
  }

  lemma {:induction false} Looks(plan: Plan, s: State, p: nat, n: nat)
    requires p !in s.procs && p !in s.files.Values
    requires n == 0 || !Looked(plan, s.files, n - 1).Create?
    ensures After(plan, s, p, n) == With(s, p, Looked(plan, s.files, n))
  {
    if n == 0 {
      Starts(plan, s, p);
    } else {
      Looks(plan, s, p, n - 1);
      LooksOnce(plan, s, p, n - 1, Looked(plan, s.files, n - 1), Looked(plan, s.files, n));
    }
  }

  lemma LooksOnce(plan: Plan, s: State, p: nat, n: nat, l: Local, next: Local)
    requires After(plan, s, p, n) == With(s, p, l) && !l.Create?
    requires l == Looked(plan, s.files, n) && next == Looked(plan, s.files, n + 1)
    ensures After(plan, s, p, n + 1) == With(s, p, next)
  {
    LookedKind(plan, s.files, n);
    LookStep(plan, s, p, l, next);
    Again(plan, s, p, n, With(s, p, l));
  }

  lemma {:induction false} Rests(plan: Plan, s: State, p: nat, n: nat, more: nat)
    requires var t := After(plan, s, p, n); p in t.procs && (t.procs[p].Done? || t.procs[p].Failed?)
    ensures After(plan, s, p, n + more) == After(plan, s, p, n)
  {
    if more > 0 {
      Rests(plan, s, p, n, more - 1);
      Again(plan, s, p, n + more - 1, After(plan, s, p, n));
    }
  }

  // ---------------------------------------------------------------- nothing there

  lemma Opens(plan: Plan, s: State, p: nat, n: nat, t: State, k: nat)
    requires After(plan, s, p, n) == With(t, p, Create(k)) && k !in t.files
    ensures After(plan, s, p, n + 1) == With(t.(files := t.files[k := p]), p, Fill(k))
  {
    Again(plan, s, p, n, With(t, p, Create(k)));
    assert t.procs[p := Create(k)][p := Fill(k)] == t.procs[p := Fill(k)];
  }

  lemma Writes(plan: Plan, s: State, p: nat, n: nat, t: State, k: nat, l: Local)
    requires After(plan, s, p, n) == With(t, p, Fill(k))
    requires l == if k + 1 < Slots(plan) then Create(k + 1) else Done(true)
    ensures After(plan, s, p, n + 1) == With(t.(filled := t.filled + {(p, k)}), p, l)
  {
    Again(plan, s, p, n, With(t, p, Fill(k)));
    assert t.procs[p := Fill(k)][p := l] == t.procs[p := l];
  }

  lemma MakesOne(plan: Plan, s: State, p: nat, n: nat, t: State, k: nat, u: State, l: Local)
    requires After(plan, s, p, n) == With(t, p, Create(k)) && k !in t.files
    requires u == t.(files := t.files[k := p], filled := t.filled + {(p, k)})
    requires l == if k + 1 < Slots(plan) then Create(k + 1) else Done(true)
    ensures After(plan, s, p, n + 2) == With(u, p, l)
  {
    Opens(plan, s, p, n, t, k);
    Writes(plan, s, p, n + 1, t.(files := t.files[k := p]), k, l);
  }

  lemma FindsNothing(plan: Plan, n: nat)
    requires n == if plan.Secret? then 2 else 4
    ensures Looked(plan, map[], n) == Create(0) && Looked(plan, map[], n - 1).Checking?
  {
    assert Looked(plan, map[], 1) == Checking([false]);
    if !plan.Secret? {
      assert Looked(plan, map[], 2) == Checking([false, false]);
      assert Looked(plan, map[], 3) == Checking([false, false, false]);
    }
  }

  lemma MakesSecret(s: State, p: nat, n: nat)
    requires s.files == map[] && After(Secret, s, p, n) == With(s, p, Create(0))
    ensures After(Secret, s, p, n + 2) == State(map[0 := p], s.filled + {(p, 0)}, s.procs[p := Done(true)])
  {
    MakesOne(Secret, s, p, n, s, 0, State(map[0 := p], s.filled + {(p, 0)}, s.procs), Done(true));
  }

  lemma MakesTwo(plan: Plan, s: State, p: nat, n: nat, l: Local)
    requires s.files == map[] && After(plan, s, p, n) == With(s, p, Create(0))
    requires Slots(plan) >= 2 && l == if Slots(plan) == 2 then Done(true) else Create(2)
    ensures After(plan, s, p, n + 4)
         == With(State(map[0 := p, 1 := p], s.filled + {(p, 0)} + {(p, 1)}, s.procs), p, l)
  {
    var one := State(map[0 := p], s.filled + {(p, 0)}, s.procs);
    MakesOne(plan, s, p, n, s, 0, one, Create(1));
    MakesOne(plan, s, p, n + 2, one, 1, State(map[0 := p, 1 := p], one.filled + {(p, 1)}, s.procs), l);
  }

  lemma MakesThree(s: State, p: nat, n: nat)
    requires s.files == map[] && After(Node, s, p, n) == With(s, p, Create(0))
    ensures After(Node, s, p, n + 6)
         == State(map[0 := p, 1 := p, 2 := p], s.filled + {(p, 0)} + {(p, 1)} + {(p, 2)}, s.procs[p := Done(true)])
  {
    MakesTwo(Node, s, p, n, Create(2));
    var two := State(map[0 := p, 1 := p], s.filled + {(p, 0)} + {(p, 1)}, s.procs);
    MakesOne(Node, s, p, n + 4, two, 2, State(map[0 := p, 1 := p, 2 := p], two.filled + {(p, 2)}, s.procs), Done(true));
  }

  /** In an empty directory a process left to itself makes exactly the files of its plan, all its own and written. */
  lemma CreatesTheSet(plan: Plan, s: State, p: nat, n: nat)
    requires s.files == map[] && p !in s.procs
    requires n >= match plan { case Secret => 4 case Authority => 8 case ControlPlane => 8 case Node => 10 }
    ensures var t := Run(plan, s, Alone(p, n));
      && t.procs == s.procs[p := Done(true)]
      && t.files == (match plan
                     case Secret => map[0 := p]
                     case Authority => map[0 := p, 1 := p]
                     case ControlPlane => map[0 := p, 1 := p]
                     case Node => map[0 := p, 1 := p, 2 := p])
      && t.filled == s.filled + (match plan
                                 case Secret => {(p, 0)}
                                 case Authority => {(p, 0), (p, 1)}
                                 case ControlPlane => {(p, 0), (p, 1)}
                                 case Node => {(p, 0), (p, 1), (p, 2)})
  {
    RunIsFold(plan, s, Alone(p, n));
    var k := if plan.Secret? then 2 else 4;
    FindsNothing(plan, k);
    Looks(plan, s, p, k);
    match plan {
      case Secret => MakesSecret(s, p, k); k := k + 2;
      case Node => MakesThree(s, p, k); k := k + 6;
      case _ => MakesTwo(plan, s, p, k, Done(true)); k := k + 4;
    }
    Rests(plan, s, p, k, n - k);
  }

  // ---------------------------------------------------------------- something there

  predicate Whole(plan: Plan, files: map<nat, nat>)
  {
    match plan
    case Secret => 0 in files
    case Authority => 0 in files && 1 in files
    case ControlPlane => 0 in files && 1 in files
    case Node => 0 in files && 1 in files && 2 in files
  }

  predicate Part(plan: Plan, files: map<nat, nat>)
  {
    match plan
    case Secret => 0 in files
    case Authority => 0 in files || 1 in files
    case ControlPlane => 0 in files || 1 in files
    case Node => 0 in files || 1 in files || 2 in files
  }

  lemma LookedAtNode(files: map<nat, nat>)
    requires Part(Node, files)
    ensures Looked(Node, files, 3).Checking?
    ensures Looked(Node, files, 4) == if Whole(Node, files) then Done(false) else Failed
  {
    var a, b, c := 1 in files, 0 in files, 2 in files;
    assert Looked(Node, files, 1) == Checking([a]);
    assert Looked(Node, files, 2) == Checking([a, b]);
    assert Looked(Node, files, 3) == Checking([a, b, c]);
  }

  lemma LookedAtPair(plan: Plan, files: map<nat, nat>, cert: nat, key: nat)
    requires (plan == Authority && cert == 0 && key == 1) || (plan == ControlPlane && cert == 1 && key == 0)
    requires cert in files || key in files
    ensures !Looked(plan, files, 3).Create?
    ensures Looked(plan, files, 4) == if cert in files && key in files then Done(false) else Failed
  {
    if cert in files {
      assert Looked(plan, files, 1) == Checking([true]);
      assert Looked(plan, files, 2) == Checking([true, key in files]);
      if key !in files {
        assert Looked(plan, files, 3) == Checking([true, false, true]);
      }
    } else {
      assert Looked(plan, files, 1) == Checking([false]);
      assert Looked(plan, files, 2) == Checking([false, false]);
      assert Looked(plan, files, 3) == Checking([false, false, true]);
    }
  }

  lemma LookedAtSecret(files: map<nat, nat>)
    requires 0 in files
    ensures Looked(Secret, files, 3) == Done(false) && Looked(Secret, files, 4) == Done(false)
  {
    assert Looked(Secret, files, 1) == Checking([true]);
    assert Looked(Secret, files, 2) == Done(false);
  }

  /**
   Where any file of the plan is there already, a process left to itself changes nothing: it reports nothing to do
   when all of them are there and raises when only some are.
   */
  lemma LeavesTheSet(plan: Plan, s: State, p: nat, n: nat)
    requires p !in s.procs && p !in s.files.Values && Part(plan, s.files) && n >= 4
    ensures Run(plan, s, Alone(p, n)) == s.(procs := s.procs[p := if Whole(plan, s.files) then Done(false) else Failed])
  {
    match plan {
      case Secret => LookedAtSecret(s.files);
      case Authority => LookedAtPair(plan, s.files, 0, 1);
      case ControlPlane => LookedAtPair(plan, s.files, 1, 0);
      case Node => LookedAtNode(s.files);
    }
    RunIsFold(plan, s, Alone(p, n));
    Looks(plan, s, p, 4);
    Rests(plan, s, p, 4, n - 4);
  }

  /** The next process to start after a set was created finds it and leaves it. */
  lemma CreatedOnce(plan: Plan, p: nat, q: nat, n: nat, m: nat)
    requires p != q && n >= 10 && m >= 4
    ensures var made := Run(plan, State(map[], {}, map[]), Alone(p, n));
      Run(plan, made, Alone(q, m)) == made.(procs := map[p := Done(true), q := Done(false)])
  {
    var empty := State(map[], {}, map[]);
    CreatesTheSet(plan, empty, p, n);
    var made := Run(plan, empty, Alone(p, n));
    assert made.procs == map[p := Done(true)];
    LeavesTheSet(plan, made, q, m);
    assert made.procs[q := Done(false)] == map[p := Done(true), q := Done(false)];
  }

  // ---------------------------------------------------------------- no process goes on for ever

  /** How many steps a process can still take. */
  function StepsLeft(plan: Plan, l: Local): nat
  {
    match l
    case Checking(seen) => if |seen| <= 4 then 11 - |seen| else 7
    case Create(k) => if k < Slots(plan) then 2 * (Slots(plan) - k) else 2
    case Fill(k) => if k < Slots(plan) then 2 * (Slots(plan) - k) - 1 else 1
    case _ => 0
  }

  function LeftOf(plan: Plan, s: State, p: nat): nat
  {
    if p in s.procs then StepsLeft(plan, s.procs[p]) else 0
  }

  lemma CheckingEnds(plan: Plan, files: map<nat, nat>, seen: seq<bool>)
    ensures StepsLeft(plan, AfterCheck(plan, files, seen)) < StepsLeft(plan, Checking(seen))
  {
  }

  /** A step of its own brings a process nearer its end. */
  lemma OwnStepEnds(plan: Plan, s: State, p: nat)
    requires p in s.procs && LeftOf(plan, s, p) > 0
    ensures p in Step(plan, s, Advance(p)).procs
    ensures LeftOf(plan, Step(plan, s, Advance(p)), p) < LeftOf(plan, s, p)
  {
    if s.procs[p].Checking? {
      CheckingEnds(plan, s.files, s.procs[p].seen);
    }
  }

  /** No other step takes it further away. */
  lemma StepEnds(plan: Plan, s: State, e: Event, p: nat)
    requires p in s.procs
    ensures p in Step(plan, s, e).procs && LeftOf(plan, Step(plan, s, e), p) <= LeftOf(plan, s, p)
    ensures e == Advance(p) && LeftOf(plan, s, p) > 0 ==> LeftOf(plan, Step(plan, s, e), p) < LeftOf(plan, s, p)
  {
    if e == Advance(p) && LeftOf(plan, s, p) > 0 {
      OwnStepEnds(plan, s, p);
    }
  }

  function OwnSteps(es: seq<Event>, p: nat): nat
  {
    if es == [] then 0 else OwnSteps(Init(es), p) + if Last(es) == Advance(p) then 1 else 0
  }

  lemma {:induction false} LeftAfter(plan: Plan, s: State, es: seq<Event>, p: nat)
    requires p in s.procs
    ensures p in Run(plan, s, es).procs
    ensures LeftOf(plan, Run(plan, s, es), p) == 0 || LeftOf(plan, Run(plan, s, es), p) + OwnSteps(es, p) <= 11
  {
    if es != [] {
      LeftAfter(plan, s, Init(es), p);
      StepEnds(plan, Run(plan, s, Init(es)), Last(es), p);
    }
  }

  /** In any run, whatever other processes do in between, eleven steps of its own see a process to its end. */
  lemma EveryProcessEnds(plan: Plan, s: State, es: seq<Event>, p: nat)
    requires p in s.procs && OwnSteps(es, p) >= 11
    ensures var t := Run(plan, s, es);
      p in t.procs && (t.procs[p].Done? || t.procs[p].Failed? || t.procs[p].Dead?)
  {
    LeftAfter(plan, s, es, p);
  }
}
