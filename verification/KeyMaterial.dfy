/**
 First-run creation of key material: any number of processes check for a set of files
 and, finding none, create them one by one with exclusive creates. Every existence test,
 create and write is a step of its own, processes interleave freely, and any of them may
 crash between two steps.

 Files are numbered in the order they are created. A file names the generation it belongs
 to, which is the process that made it; a file that was created and never written is empty.
 */
module KeyMaterial {
  import opened Text

  datatype Plan =
    | Authority     // certificate, then key
    | ControlPlane  // key, then certificate
    | Node          // key, then certificate, then CA certificate
    | Secret        // one file

  function Slots(plan: Plan): (n: nat)
    ensures 1 <= n <= 3
  {
    match plan
    case Authority => 2
    case ControlPlane => 2
    case Node => 3
    case Secret => 1
  }

  datatype Verdict = Ask(slot: nat) | Proceed | Present | Refuse

  /** `cert.exists() and key.exists()`, then `cert.exists() or key.exists()`, each test read anew. */
  function PairVerdict(cert: nat, key: nat, seen: seq<bool>): Verdict
  {
    if seen == [] then Ask(cert)
    else if seen[0] then
      if |seen| == 1 then Ask(key) else if seen[1] then Present else OrVerdict(cert, key, seen[2..])
    else OrVerdict(cert, key, seen[1..])
  }

  function OrVerdict(cert: nat, key: nat, seen: seq<bool>): Verdict
  {
    if seen == [] then Ask(cert)
    else if seen[0] then Refuse
    else if |seen| == 1 then Ask(key)
    else if seen[1] then Refuse else Proceed
  }

  /** What a process does next, given the answers its tests have had so far. */
  function Decide(plan: Plan, seen: seq<bool>): Verdict
  {
    match plan
    case Authority => PairVerdict(0, 1, seen)
    case ControlPlane => PairVerdict(1, 0, seen)
    case Node =>
      if |seen| == 0 then Ask(1)
      else if |seen| == 1 then Ask(0)
      else if |seen| == 2 then Ask(2)
      else if !seen[0] && !seen[1] && !seen[2] then Proceed
      else if seen[0] && seen[1] && seen[2] then Present
      else Refuse
    case Secret =>
      if |seen| == 0 then Ask(0) else if seen[0] then Present else Proceed
  }

  datatype Local =
    | Checking(seen: seq<bool>)
    | Create(slot: nat)              // about to open the file exclusively
    | Fill(slot: nat)                // opened it, about to write
    | Done(created: bool)
    | Failed                         // raised
    | Dead(last: Local)              // crashed with `last` as the next step

  /** `files` maps each present file to its generation; `filled` holds the (generation, slot) pairs written. */
  datatype State = State(files: map<nat, nat>, filled: set<(nat, nat)>, procs: map<nat, Local>)

  datatype Event = Start(p: nat) | Advance(p: nat) | Crash(p: nat)

  predicate Enabled(plan: Plan, s: State, e: Event)
  {
    match e
    case Start(p) => p !in s.procs && p !in s.files.Values
    case Advance(p) => p in s.procs && (s.procs[p].Checking? || s.procs[p].Create? || s.procs[p].Fill?)
    case Crash(p) => p in s.procs && !s.procs[p].Dead?
  }

  function Next(plan: Plan, s: State, e: Event): State
    requires Enabled(plan, s, e)
  {
    match e
    case Start(p) => s.(procs := s.procs[p := Checking([])])
    case Crash(p) => s.(procs := s.procs[p := Dead(s.procs[p])])
    case Advance(p) =>
      match s.procs[p] {
        case Checking(seen) => s.(procs := s.procs[p := AfterCheck(plan, s.files, seen)])
        case Create(k) =>
          if k in s.files then s.(procs := s.procs[p := Failed])
          else s.(files := s.files[k := p], procs := s.procs[p := Fill(k)])
        case Fill(k) =>
          s.(filled := s.filled + {(p, k)},
             procs := s.procs[p := if k + 1 < Slots(plan) then Create(k + 1) else Done(true)])
        case _ => s
      }
  }

  function AfterCheck(plan: Plan, files: map<nat, nat>, seen: seq<bool>): Local
  {
    match Decide(plan, seen)
    case Ask(slot) => Checking(seen + [slot in files])
    case Proceed => Create(0)
    case Present => Done(false)
    case Refuse => Failed
  }

  function Step(plan: Plan, s: State, e: Event): State
  {
    if Enabled(plan, s, e) then Next(plan, s, e) else s
  }

  /** A run is any interleaving: any sequence of events, those not possible where they stand doing nothing. */
  function Run(plan: Plan, s: State, es: seq<Event>): State
  {
    if es == [] then s else Step(plan, Run(plan, s, Init(es)), Last(es))
  }

  // ---------------------------------------------------------------- what a process has seen

  /** The answers of a process, each given when the files in `always` were there and none outside `ever`. */
  ghost predicate Saw(plan: Plan, seen: seq<bool>, always: set<nat>, ever: set<nat>)
  {
    seen == [] ||
    (var v := Decide(plan, Init(seen));
     && Saw(plan, Init(seen), always, ever)
     && v.Ask? && (v.slot in always ==> Last(seen)) && (Last(seen) ==> v.slot in ever))
  }

  lemma SawMore(plan: Plan, seen: seq<bool>, always: set<nat>, ever: set<nat>, there: bool)
    requires Saw(plan, seen, always, ever) && Decide(plan, seen).Ask?
    requires Decide(plan, seen).slot in always ==> there
    requires there ==> Decide(plan, seen).slot in ever
    ensures Saw(plan, seen + [there], always, ever)
  {
  }

  lemma {:induction false} SawMono(plan: Plan, seen: seq<bool>, always: set<nat>, ever: set<nat>, more: set<nat>)
    requires Saw(plan, seen, always, ever) && ever <= more
    ensures Saw(plan, seen, always, more)
  {
    if seen != [] {
      SawMono(plan, Init(seen), always, ever, more);
    }
  }

  lemma {:induction false} SawPrefix(plan: Plan, seen: seq<bool>, always: set<nat>, ever: set<nat>, n: nat)
    requires Saw(plan, seen, always, ever) && n < |seen|
    ensures var v := Decide(plan, seen[..n]);
      v.Ask? && (v.slot in always ==> seen[n]) && (seen[n] ==> v.slot in ever)
  {
    if n < |seen| - 1 {
      SawPrefix(plan, Init(seen), always, ever, n);
      assert Init(seen)[..n] == seen[..n];
    } else {
      assert Init(seen) == seen[..n];
    }
  }

  /** Every test that led to a verdict, spelled out. */
  lemma SawAll(plan: Plan, seen: seq<bool>, always: set<nat>, ever: set<nat>)
    requires Saw(plan, seen, always, ever) && !Decide(plan, seen).Ask?
    ensures Decide(plan, seen).Proceed? ==> forall k :: 0 <= k < Slots(plan) ==> k !in always
    ensures Decide(plan, seen).Present? ==> Complete(plan, ever)
  {
    if |seen| >= 1 {
      SawPrefix(plan, seen, always, ever, 0);
      assert seen[..0] == [];
    }
    if |seen| >= 2 {
      SawPrefix(plan, seen, always, ever, 1);
      assert seen[..1] == [seen[0]];
    }
    if |seen| >= 3 {
      SawPrefix(plan, seen, always, ever, 2);
      assert seen[..2] == [seen[0], seen[1]];
    }
    if |seen| >= 4 {
      SawPrefix(plan, seen, always, ever, 3);
      assert seen[..3] == [seen[0], seen[1], seen[2]];
    }
  }

  // ---------------------------------------------------------------- a directory that holds something

  ghost predicate Complete(plan: Plan, there: set<nat>)
  {
    forall k: nat :: k < Slots(plan) ==> k in there
  }

  ghost predicate Harmless(plan: Plan, l: Local, there: set<nat>)
  {
    match l
    case Checking(seen) => Saw(plan, seen, there, there)
    case Create(_) => false
    case Fill(_) => false
    case Done(created) => !created && Complete(plan, there)
    case Failed => true
    case Dead(last) => Harmless(plan, last, there)
  }

  ghost predicate NobodyCreates(plan: Plan, s: State, there: set<nat>)
  {
    forall p :: p in s.procs ==> Harmless(plan, s.procs[p], there)
  }

  lemma HarmlessCheck(plan: Plan, files: map<nat, nat>, seen: seq<bool>)
    requires Saw(plan, seen, files.Keys, files.Keys)
    requires exists k :: k in files && k < Slots(plan)
    ensures Harmless(plan, AfterCheck(plan, files, seen), files.Keys)
  {
    if Decide(plan, seen).Ask? {
      SawMore(plan, seen, files.Keys, files.Keys, Decide(plan, seen).slot in files);
    } else {
      SawAll(plan, seen, files.Keys, files.Keys);
    }
  }

  lemma UntouchedStep(plan: Plan, s: State, e: Event)
    requires NobodyCreates(plan, s, s.files.Keys)
    requires exists k :: k in s.files && k < Slots(plan)
    ensures var t := Step(plan, s, e);
      t.files == s.files && t.filled == s.filled && NobodyCreates(plan, t, s.files.Keys)
  {
    if Enabled(plan, s, e) && e.Advance? {
      assert Harmless(plan, s.procs[e.p], s.files.Keys);
      HarmlessCheck(plan, s.files, s.procs[e.p].seen);
    }
  }

  /** Whatever is there, whole or half-written, no run of any processes adds to it, replaces it or completes it. */
  lemma {:induction false} UntouchedRun(plan: Plan, s: State, es: seq<Event>)
    requires s.procs == map[] && exists k :: k in s.files && k < Slots(plan)
    ensures var t := Run(plan, s, es);
      t.files == s.files && t.filled == s.filled && NobodyCreates(plan, t, s.files.Keys)
  {
    if es != [] {
      UntouchedRun(plan, s, Init(es));
      UntouchedStep(plan, Run(plan, s, Init(es)), Last(es));
    }
  }

  // ---------------------------------------------------------------- an empty directory

  function Core(l: Local): Local
  {
    if l.Dead? then Core(l.last) else l
  }

  predicate Making(l: Local)
  {
    (l.Create? && l.slot > 0) || l.Fill? || (l.Done? && l.created)
  }

  /** The files below `k` are `p`'s own and written. */
  ghost predicate Owns(files: map<nat, nat>, filled: set<(nat, nat)>, p: nat, k: nat)
  {
    forall j :: 0 <= j < k ==> j in files && files[j] == p && (p, j) in filled
  }

  /** What the directory holds for a process at `l`. */
  ghost predicate Role(plan: Plan, files: map<nat, nat>, filled: set<(nat, nat)>, p: nat, l: Local)
  {
    match Core(l)
    case Checking(seen) => Saw(plan, seen, {}, files.Keys)
    case Create(k) => k < Slots(plan) && Owns(files, filled, p, k) && (0 < k ==> k !in files)
    case Fill(k) =>
      && k < Slots(plan) && Owns(files, filled, p, k)
      && k in files && files[k] == p && (p, k) !in filled && k + 1 !in files
    case Done(created) =>
      if created then Owns(files, filled, p, Slots(plan)) else Complete(plan, files.Keys)
    case _ => true
  }

  ghost predicate Uniform(plan: Plan, files: map<nat, nat>)
  {
    && (forall k :: k in files ==> k < Slots(plan) && 0 in files && files[k] == files[0])
    && (forall k :: k in files && 0 < k ==> k - 1 in files)
  }

  /** One generation, in creation order, and its maker is known. */
  ghost predicate OneGeneration(plan: Plan, s: State)
  {
    && Uniform(plan, s.files)
    && (forall p :: p in s.procs ==> Role(plan, s.files, s.filled, p, s.procs[p]))
    && (0 in s.files ==> s.files[0] in s.procs && Making(Core(s.procs[s.files[0]])))
    && (forall f :: f in s.filled ==> f.1 in s.files && s.files[f.1] == f.0)
  }

  lemma CheckRole(plan: Plan, s: State, p: nat, seen: seq<bool>)
    requires Saw(plan, seen, {}, s.files.Keys)
    ensures Role(plan, s.files, s.filled, p, AfterCheck(plan, s.files, seen))
  {
    if Decide(plan, seen).Ask? {
      SawMore(plan, seen, {}, s.files.Keys, Decide(plan, seen).slot in s.files);
    } else {
      SawAll(plan, seen, {}, s.files.Keys);
    }
  }

  /** A create by the one process entitled to it leaves every other process where it was. */
  lemma CreateRole(plan: Plan, s: State, p: nat, k: nat, q: nat)
    requires OneGeneration(plan, s) && p in s.procs && s.procs[p] == Create(k) && k !in s.files
    requires q in s.procs && q != p
    ensures Role(plan, s.files[k := p], s.filled, q, s.procs[q])
  {
    var l := Core(s.procs[q]);
    assert Role(plan, s.files, s.filled, q, s.procs[q]);
    if l.Checking? {
      SawMono(plan, l.seen, {}, s.files.Keys, s.files[k := p].Keys);
    }
    assert Role(plan, s.files, s.filled, p, s.procs[p]);
    assert 0 in s.files ==> s.files[0] == p;
  }

  lemma CreateStep(plan: Plan, s: State, p: nat, k: nat)
    requires OneGeneration(plan, s) && p in s.procs && s.procs[p] == Create(k) && k !in s.files
    ensures OneGeneration(plan, s.(files := s.files[k := p], procs := s.procs[p := Fill(k)]))
  {
    assert Role(plan, s.files, s.filled, p, s.procs[p]);
    forall q | q in s.procs && q != p ensures Role(plan, s.files[k := p], s.filled, q, s.procs[q]) {
      CreateRole(plan, s, p, k, q);
    }
  }

  lemma FillStep(plan: Plan, s: State, p: nat)
    requires OneGeneration(plan, s) && p in s.procs && s.procs[p].Fill?
    ensures OneGeneration(plan, Next(plan, s, Advance(p)))
  {
  }

  lemma CheckStep(plan: Plan, s: State, p: nat)
    requires OneGeneration(plan, s) && p in s.procs && s.procs[p].Checking?
    ensures OneGeneration(plan, Next(plan, s, Advance(p)))
  {
    assert Role(plan, s.files, s.filled, p, s.procs[p]);
    CheckRole(plan, s, p, s.procs[p].seen);
  }

  lemma MarkStep(plan: Plan, s: State, e: Event)
    requires OneGeneration(plan, s) && Enabled(plan, s, e) && !e.Advance?
    ensures OneGeneration(plan, Next(plan, s, e))
  {
  }

  lemma GenerationStep(plan: Plan, s: State, e: Event)
    requires OneGeneration(plan, s)
    ensures OneGeneration(plan, Step(plan, s, e))
  {
    if Enabled(plan, s, e) {
      if !e.Advance? {
        MarkStep(plan, s, e);
      } else if s.procs[e.p].Checking? {
        CheckStep(plan, s, e.p);
      } else if s.procs[e.p].Fill? {
        FillStep(plan, s, e.p);
      } else if s.procs[e.p].slot in s.files {
        FailStep(plan, s, e.p);
      } else {
        CreateStep(plan, s, e.p, s.procs[e.p].slot);
      }
    }
  }

  lemma FailStep(plan: Plan, s: State, p: nat)
    requires OneGeneration(plan, s) && p in s.procs && s.procs[p].Create? && s.procs[p].slot in s.files
    ensures OneGeneration(plan, s.(procs := s.procs[p := Failed]))
  {
  }

  /** From an empty directory, every interleaving of any number of processes and crashes keeps one generation. */
  lemma {:induction false} GenerationRun(plan: Plan, es: seq<Event>)
    ensures OneGeneration(plan, Run(plan, State(map[], {}, map[]), es))
  {
    if es != [] {
      GenerationRun(plan, Init(es));
      GenerationStep(plan, Run(plan, State(map[], {}, map[]), Init(es)), Last(es));
    }
  }

  /** A file, once there, stays and keeps its generation and its bytes through any further run. */
  lemma {:induction false} NeverChanges(plan: Plan, s: State, es: seq<Event>, k: nat)
    requires k in s.files
    ensures var t := Run(plan, s, es);
      && k in t.files && t.files[k] == s.files[k]
      && ((s.files[k], k) in s.filled ==> (s.files[k], k) in t.filled)
  {
    if es != [] {
      NeverChanges(plan, s, Init(es), k);
    }
  }

  /** A process that says it created the set made and wrote every file of it; no two processes say so. */
  lemma CreatorOwnsAll(plan: Plan, es: seq<Event>, p: nat, q: nat)
    requires var t := Run(plan, State(map[], {}, map[]), es);
      p in t.procs && Core(t.procs[p]) == Done(true) && q in t.procs && Core(t.procs[q]) == Done(true)
    ensures p == q
    ensures var t := Run(plan, State(map[], {}, map[]), es);
      forall k :: 0 <= k < Slots(plan) ==> k in t.files && t.files[k] == p && (p, k) in t.filled
  {
    GenerationRun(plan, es);
    var t := Run(plan, State(map[], {}, map[]), es);
    assert Role(plan, t.files, t.filled, p, t.procs[p]);
    assert Role(plan, t.files, t.filled, q, t.procs[q]);
    assert Owns(t.files, t.filled, p, Slots(plan)) && Owns(t.files, t.filled, q, Slots(plan));
    assert 0 in t.files && t.files[0] == p && t.files[0] == q;
  }

  ghost predicate Usable(plan: Plan, s: State)
  {
    forall k :: 0 <= k < Slots(plan) ==> k in s.files && (s.files[k], k) in s.filled
  }

  /**
   When every file is there, all but the last are surely written, and the last is written exactly
   when its maker is not stopped, alive or crashed, between creating and writing it.
   */
  lemma CompleteIsUsableIff(plan: Plan, es: seq<Event>)
    requires Complete(plan, Run(plan, State(map[], {}, map[]), es).files.Keys)
    ensures var t := Run(plan, State(map[], {}, map[]), es);
      && 0 in t.files && t.files[0] in t.procs
      && (forall k :: 0 <= k < Slots(plan) - 1 ==> k in t.files && (t.files[k], k) in t.filled)
      && (Usable(plan, t) <==> Core(t.procs[t.files[0]]) != Fill(Slots(plan) - 1))
  {
    GenerationRun(plan, es);
    var t := Run(plan, State(map[], {}, map[]), es);
    assert 0 in t.files.Keys;
    var p := t.files[0];
    var l := Core(t.procs[p]);
    assert Role(plan, t.files, t.filled, p, t.procs[p]);
    var last: nat := Slots(plan) - 1;
    assert last in t.files.Keys;
  }

  lemma RunSnoc(plan: Plan, s: State, es: seq<Event>, e: Event, r: State)
    requires Run(plan, s, es) == r
    ensures Run(plan, s, es + [e]) == Step(plan, r, e)
  {
  }

  /**
   The existence test does not see the difference: after a crash between creating the deployment
   secret and writing it, the next process finds the file and reports nothing to do, over an empty one.
   */
  lemma PresentButEmpty()
    ensures var s0 := State(map[], {}, map[]);
      var es := [Start(0), Advance(0), Advance(0), Advance(0), Crash(0), Start(1), Advance(1), Advance(1)];
      var t := Run(Secret, s0, es);
      1 in t.procs && t.procs[1] == Done(false) && !Usable(Secret, t)
  {
    var s0 := State(map[], {}, map[]);
    assert [] + [false] == [false] && [] + [true] == [true];
    var es0, s1 := [Start(0)], State(map[], {}, map[0 := Checking([])]);
    assert Init(es0) == [];
    var es1, s2 := es0 + [Advance(0)], State(map[], {}, map[0 := Checking([false])]);
    RunSnoc(Secret, s0, es0, Advance(0), s1);
    var es2, s3 := es1 + [Advance(0)], State(map[], {}, map[0 := Create(0)]);
    RunSnoc(Secret, s0, es1, Advance(0), s2);
    var es3, s4 := es2 + [Advance(0)], State(map[0 := 0], {}, map[0 := Fill(0)]);
    RunSnoc(Secret, s0, es2, Advance(0), s3);
    var es4, s5 := es3 + [Crash(0)], State(map[0 := 0], {}, map[0 := Dead(Fill(0))]);
    RunSnoc(Secret, s0, es3, Crash(0), s4);
    var es5, s6 := es4 + [Start(1)], s5.(procs := s5.procs[1 := Checking([])]);
    RunSnoc(Secret, s0, es4, Start(1), s5);
    var es6, s7 := es5 + [Advance(1)], s5.(procs := s5.procs[1 := Checking([true])]);
    RunSnoc(Secret, s0, es5, Advance(1), s6);
    RunSnoc(Secret, s0, es6, Advance(1), s7);
    assert es6 + [Advance(1)]
        == [Start(0), Advance(0), Advance(0), Advance(0), Crash(0), Start(1), Advance(1), Advance(1)];
  }
}
