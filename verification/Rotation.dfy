/**
 Rotating the control plane's certificate: the current pair is renamed aside, certificate
 first, and a new one is issued, while any number of other processes may be creating the
 pair at the same time and any of them, or the rotation, may crash.
 */
module Rotation {
  import opened Text
  import opened KeyMaterial
  import FirstRun

  const KEY: nat := 0
  const CERT: nat := 1

  datatype Rotor = Idle | ReadOldCert | ReadOldKey | MoveCert | MoveKey

  /** `aside` is what stands under the two `.old` names. */
  datatype World = World(now: State, aside: map<nat, nat>, rotor: Rotor)

  datatype Event =
    | Ensure(e: KeyMaterial.Event)
    | Begin
    | Turn(p: nat)  // the rotation's next step; `p` is the process that will issue the new pair
    | Stop          // the rotation crashes

  function Restarted(w: World): World
  {
    w.(rotor := Idle)
  }

  predicate Fresh(w: World, p: nat)
  {
    p !in w.now.procs && p !in w.now.files.Values && p !in w.aside.Values
  }

  function Turned(w: World, p: nat): World
  {
    match w.rotor
    case Idle => w
    case ReadOldCert => if CERT in w.aside then Restarted(w) else w.(rotor := ReadOldKey)
    case ReadOldKey => if KEY in w.aside then Restarted(w) else w.(rotor := MoveCert)
    case MoveCert =>
      if CERT !in w.now.files then Restarted(w)
      else World(w.now.(files := w.now.files - {CERT}), w.aside[CERT := w.now.files[CERT]], MoveKey)
    case MoveKey =>
      if KEY !in w.now.files then Restarted(w)
      else
        World(w.now.(files := w.now.files - {KEY}, procs := w.now.procs[p := Checking([])]),
              w.aside[KEY := w.now.files[KEY]], Idle)
  }

  function Step(w: World, e: Event): World
  {
    match e
    case Ensure(i) =>
      if i.Start? && !Fresh(w, i.p) then w else w.(now := KeyMaterial.Step(ControlPlane, w.now, i))
    case Begin => if w.rotor.Idle? then w.(rotor := ReadOldCert) else w
    case Turn(p) => if Fresh(w, p) then Turned(w, p) else w
    case Stop => Restarted(w)
  }

  function Run(w: World, es: seq<Event>): World
  {
    if es == [] then w else Step(Run(w, Init(es)), Last(es))
  }

  /** Whatever complete pair is at the current paths is a matching one. */
  ghost predicate Matching(files: map<nat, nat>)
  {
    CERT in files ==> KEY in files && files[KEY] == files[CERT]
  }

  ghost predicate Place(w: World, p: nat, l: Local)
  {
    match Core(l)
    case Checking(_) => p !in w.now.files.Values && p !in w.aside.Values
    case Create(k) =>
      if k == KEY then p !in w.now.files.Values && p !in w.aside.Values
      else k == CERT && HoldsKey(w, p)
    case Fill(k) => if k == KEY then HoldsKey(w, p) else k == CERT
    case _ => true
  }

  /** The key is `p`'s and its certificate has not been made. */
  ghost predicate HoldsKey(w: World, p: nat)
  {
    && KEY in w.now.files && w.now.files[KEY] == p
    && CERT !in w.now.files && (CERT in w.aside ==> w.aside[CERT] != p)
  }

  ghost predicate Sound(w: World)
  {
    && w.now.files.Keys <= {KEY, CERT}
    && Matching(w.now.files)
    && (forall k :: k in w.now.files && k in w.aside ==> w.now.files[k] != w.aside[k])
    && (forall p :: p in w.now.procs ==> Place(w, p, w.now.procs[p]))
    && (KEY in w.aside && CERT in w.aside ==> w.aside[KEY] == w.aside[CERT])
    && (w.rotor.ReadOldKey? ==> CERT !in w.aside)
    && (w.rotor.MoveCert? ==> CERT !in w.aside && KEY !in w.aside)
    && (w.rotor.MoveKey? ==>
          && CERT in w.aside && KEY !in w.aside && CERT !in w.now.files
          && KEY in w.now.files && w.now.files[KEY] == w.aside[CERT])
  }

  lemma CreateSound(w: World, p: nat)
    requires Sound(w) && p in w.now.procs && w.now.procs[p].Create?
    ensures Sound(w.(now := KeyMaterial.Next(ControlPlane, w.now, Advance(p))))
  {
  }

  lemma QuietSound(w: World, i: KeyMaterial.Event)
    requires Sound(w) && Enabled(ControlPlane, w.now, i) && (i.Start? ==> Fresh(w, i.p))
    requires i.Advance? ==> !w.now.procs[i.p].Create?
    ensures Sound(w.(now := KeyMaterial.Next(ControlPlane, w.now, i)))
  {
  }

  lemma TurnSound(w: World, p: nat)
    requires Sound(w) && Fresh(w, p)
    ensures Sound(Turned(w, p))
  {
  }

  lemma StepSound(w: World, e: Event)
    requires Sound(w)
    ensures Sound(Step(w, e))
  {
    match e
    case Ensure(i) =>
      if Enabled(ControlPlane, w.now, i) && !(i.Start? && !Fresh(w, i.p)) {
        if i.Advance? && w.now.procs[i.p].Create? {
          CreateSound(w, i.p);
        } else {
          QuietSound(w, i);
        }
      }
    case Turn(p) =>
      if Fresh(w, p) {
        TurnSound(w, p);
      }
    case Begin =>
      assert forall q :: q in w.now.procs ==> Place(w, q, w.now.procs[q]);
    case Stop =>
      assert forall q :: q in w.now.procs ==> Place(w, q, w.now.procs[q]);
  }

  /** Over every run the current pair, when complete, matches; so does the pair moved aside. */
  lemma {:induction false} PairsMatch(w: World, es: seq<Event>)
    requires Sound(w)
    ensures Sound(Run(w, es)) && Matching(Run(w, es).now.files)
    ensures var aside := Run(w, es).aside; KEY in aside && CERT in aside ==> aside[KEY] == aside[CERT]
  {
    if es != [] {
      PairsMatch(w, Init(es));
      StepSound(Run(w, Init(es)), Last(es));
    }
  }

  ghost predicate UnderOneName(w: World, slot: nat, g: nat)
  {
    (slot in w.now.files && w.now.files[slot] == g) != (slot in w.aside && w.aside[slot] == g)
  }

  ghost predicate Kept(w: World, g: nat)
  {
    UnderOneName(w, CERT, g) && UnderOneName(w, KEY, g)
  }

  lemma StepKeepsOld(w: World, e: Event, g: nat)
    requires Sound(w) && Kept(w, g)
    ensures Kept(Step(w, e), g)
  {
    assert g in w.now.files.Values || g in w.aside.Values by {
      if CERT in w.aside && w.aside[CERT] == g {
        assert g in w.aside.Values;
      } else {
        assert w.now.files[CERT] == g;
      }
    }
    if e.Ensure? && e.e.Advance? && e.e.p in w.now.procs {
      assert Place(w, e.e.p, w.now.procs[e.e.p]);
    }
  }

  /**
   A complete pair, whenever and by whomever it was made, is never lost: through any further run each of its files is
   under exactly one of its two names.
   */
  lemma {:induction false} OldPairKept(w: World, es: seq<Event>, g: nat)
    requires Sound(w) && Kept(w, g)
    ensures Kept(Run(w, es), g) && Sound(Run(w, es))
  {
    if es != [] {
      OldPairKept(w, Init(es), g);
      StepKeepsOld(Run(w, Init(es)), Last(es), g);
      StepSound(Run(w, Init(es)), Last(es));
    }
  }

  // ---------------------------------------------------------------- which directories are safe to start from

  /** Nothing running and nothing moved aside. */
  predicate Quiet(w: World)
  {
    w.now.files.Keys <= {KEY, CERT} && w.now.procs == map[] && w.aside == map[] && w.rotor.Idle?
  }

  /** A pair that is complete at any point of a run, made before it or during it, is kept through whatever follows. */
  lemma EveryPairKept(w: World, es: seq<Event>, more: seq<Event>, g: nat)
    requires Quiet(w) && Matching(w.now.files)
    requires var v := Run(w, es); CERT in v.now.files && v.now.files[CERT] == g
    ensures Kept(Run(Run(w, es), more), g)
  {
    PairsMatch(w, es);
    OldPairKept(Run(w, es), more, g);
  }

  ghost predicate Agreed(files: map<nat, nat>)
  {
    KEY in files && CERT in files ==> files[KEY] == files[CERT]
  }

  ghost predicate Reaches(w: World, v: World)
  {
    exists es :: Run(w, es) == v
  }

  lemma ReachStep(w: World, v: World, e: Event, next: World)
    requires Reaches(w, v) && Step(v, e) == next
    ensures Reaches(w, next)
  {
    var es :| Run(w, es) == v;
    assert Init(es + [e]) == es;
    assert Run(w, es + [e]) == next;
  }

  function With(v: World, p: nat, l: Local): World
  {
    v.(now := v.now.(procs := v.now.procs[p := l]))
  }

  lemma Checks(w: World, v: World, p: nat, seen: seq<bool>)
    requires Reaches(w, With(v, p, Checking(seen))) && v.now.files == map[]
    ensures Reaches(w, With(v, p, AfterCheck(ControlPlane, v.now.files, seen)))
  {
    var before, after := With(v, p, Checking(seen)), With(v, p, AfterCheck(ControlPlane, v.now.files, seen));
    assert Step(before, Ensure(Advance(p))).now.procs == after.now.procs;
    ReachStep(w, before, Ensure(Advance(p)), after);
  }

  lemma NothingThere()
    ensures AfterCheck(ControlPlane, map[], []) == Checking([false])
    ensures AfterCheck(ControlPlane, map[], [false]) == Checking([false, false])
    ensures AfterCheck(ControlPlane, map[], [false, false]) == Checking([false, false, false])
    ensures AfterCheck(ControlPlane, map[], [false, false, false]) == Create(KEY)
  {
  }

  /** In an empty directory a process finds nothing and goes on to create. */
  lemma Proceeds(w: World, v: World, p: nat)
    requires Reaches(w, v) && v.now.files == map[] && Fresh(v, p)
    ensures Reaches(w, With(v, p, Create(KEY)))
  {
    NothingThere();
    ReachStep(w, v, Ensure(Start(p)), With(v, p, Checking([])));
    Checks(w, v, p, []);
    Checks(w, v, p, [false]);
    Checks(w, v, p, [false, false]);
    Checks(w, v, p, [false, false, false]);
  }

  /** A rotation that finds a certificate and no key has moved the certificate aside before it finds out. */
  lemma MovesAside(w: World, g: nat) returns (v: World)
    requires Quiet(w) && w.now.files == map[CERT := g]
    ensures v == World(w.now.(files := map[]), map[CERT := g], MoveKey) && Reaches(w, v)
  {
    var r := g + 1;
    assert Run(w, []) == w;
    ReachStep(w, w, Begin, w.(rotor := ReadOldCert));
    ReachStep(w, w.(rotor := ReadOldCert), Turn(r), w.(rotor := ReadOldKey));
    ReachStep(w, w.(rotor := ReadOldKey), Turn(r), w.(rotor := MoveCert));
    v := World(w.now.(files := map[]), map[CERT := g], MoveKey);
    assert w.now.files - {CERT} == map[];
    ReachStep(w, w.(rotor := MoveCert), Turn(r), v);
  }

  /** A process with a file to create, none in its way. */
  lemma Creates(w: World, v: World, p: nat, k: nat)
    requires Reaches(w, v) && p in v.now.procs && v.now.procs[p] == Create(k) && k !in v.now.files
    ensures Reaches(w, v.(now := v.now.(files := v.now.files[k := p], procs := v.now.procs[p := Fill(k)])))
  {
    ReachStep(w, v, Ensure(Advance(p)), v.(now := v.now.(files := v.now.files[k := p],
      procs := v.now.procs[p := Fill(k)])));
  }

  lemma WritesKey(w: World, v: World, p: nat)
    requires Reaches(w, v) && p in v.now.procs && v.now.procs[p] == Fill(KEY)
    ensures Reaches(w, v.(now := v.now.(filled := v.now.filled + {(p, KEY)}, procs := v.now.procs[p := Create(CERT)])))
  {
    var next := v.(now := v.now.(filled := v.now.filled + {(p, KEY)}, procs := v.now.procs[p := Create(CERT)]));
    ReachStep(w, v, Ensure(Advance(p)), next);
  }

  lemma MovesKey(w: World, v: World, r: nat)
    requires Reaches(w, v) && v.rotor.MoveKey? && KEY in v.now.files && Fresh(v, r)
    ensures Reaches(w, Turned(v, r))
  {
    ReachStep(w, v, Turn(r), Turned(v, r));
  }

  /** Two processes in the empty directory, the first one's key moved aside between its key and its certificate. */
  lemma Mixes(w: World, v: World, p: nat, q: nat, r: nat) returns (t: World)
    requires Reaches(w, v) && v.now.files == map[] && v.rotor.MoveKey? && p != q
    requires p in v.now.procs && v.now.procs[p] == Create(KEY) && q in v.now.procs && v.now.procs[q] == Create(KEY)
    requires Fresh(v, r)
    ensures Reaches(w, t) && t.now.files == map[CERT := p, KEY := q]
  {
    Creates(w, v, p, KEY);
    var v1 := v.(now := v.now.(files := map[KEY := p], procs := v.now.procs[p := Fill(KEY)]));
    WritesKey(w, v1, p);
    var v2 := v1.(now := v1.now.(filled := v1.now.filled + {(p, KEY)}, procs := v1.now.procs[p := Create(CERT)]));
    MovesKey(w, v2, r);
    var v3 := Turned(v2, r);
    assert v3.now.files == map[];
    Creates(w, v3, p, CERT);
    var v4 := v3.(now := v3.now.(files := map[CERT := p], procs := v3.now.procs[p := Fill(CERT)]));
    Creates(w, v4, q, KEY);
    t := v4.(now := v4.now.(files := map[CERT := p][KEY := q], procs := v4.now.procs[q := Fill(KEY)]));
  }

  /** Rotating a certificate that has no key can end with one process's certificate beside another's key. */
  lemma LoneCertificateMixes(w: World, g: nat) returns (t: World)
    requires Quiet(w) && w.now.files == map[CERT := g]
    ensures Reaches(w, t) && !Agreed(t.now.files)
  {
    var v := MovesAside(w, g);
    var p, q, r := g + 1, g + 2, g + 3;
    Proceeds(w, v, p);
    Proceeds(w, With(v, p, Create(KEY)), q);
    var u := With(With(v, p, Create(KEY)), q, Create(KEY));
    assert u.now.procs == map[p := Create(KEY), q := Create(KEY)];
    t := Mixes(w, u, p, q, r);
  }

  /**
   A quiet directory never comes to hold a mismatched pair exactly when it is empty, holds a key alone, or a matching
   pair.
   */
  lemma SafeStartIff(w: World)
    requires Quiet(w)
    ensures (forall es :: Agreed(Run(w, es).now.files)) <==> Matching(w.now.files)
  {
    if Matching(w.now.files) {
      forall es
        ensures Agreed(Run(w, es).now.files)
      {
        PairsMatch(w, es);
      }
    } else if KEY in w.now.files {
      assert Run(w, []) == w;
    } else {
      assert w.now.files == map[CERT := w.now.files[CERT]];
      var t := LoneCertificateMixes(w, w.now.files[CERT]);
      var es :| Run(w, es) == t;
      assert !Agreed(Run(w, es).now.files);
    }
  }

  // ---------------------------------------------------------------- what a rotation comes to

  lemma Then(w: World, es: seq<Event>, e: Event, v: World)
    requires Run(w, es) == v
    ensures Run(w, es + [e]) == Step(v, e)
  {
    assert Init(es + [e]) == es;
  }

  lemma {:induction false} RunAppend(w: World, es: seq<Event>, more: seq<Event>)
    ensures Run(w, es + more) == Run(Run(w, es), more)
  {
    if more == [] {
      assert es + more == es;
    } else {
      RunAppend(w, es, Init(more));
      assert Init(es + more) == es + Init(more);
    }
  }

  /** A rotation begins and takes four steps, each carried out by a process that will be `p`. */
  function Rotate(p: nat): seq<Event>
  {
    [Begin, Turn(p), Turn(p), Turn(p), Turn(p)]
  }

  /** The issuing process takes `n` steps. */
  function Issue(p: nat, n: nat): seq<Event>
  {
    seq(n, _ => Ensure(Advance(p)))
  }

  /** The first three steps of a rotation look and do not touch. */
  lemma LooksAside(w: World, p: nat)
    requires w.rotor.Idle? && Fresh(w, p) && KEY !in w.aside && CERT !in w.aside
    ensures Run(w, [Begin, Turn(p), Turn(p)]) == w.(rotor := MoveCert)
  {
    assert Run(w, []) == w;
    Then(w, [], Begin, w);
    Then(w, [] + [Begin], Turn(p), w.(rotor := ReadOldCert));
    Then(w, [Begin] + [Turn(p)], Turn(p), w.(rotor := ReadOldKey));
    assert [] + [Begin] == [Begin] && [Begin] + [Turn(p)] + [Turn(p)] == [Begin, Turn(p), Turn(p)];
  }

  lemma MovesPair(w: World, p: nat, v: World)
    requires w.rotor.Idle? && Fresh(w, p) && KEY !in w.aside && CERT !in w.aside
    requires w.now.files.Keys == {KEY, CERT}
    requires v == World(w.now.(files := map[], procs := w.now.procs[p := Checking([])]),
                        w.aside[CERT := w.now.files[CERT]][KEY := w.now.files[KEY]], Idle)
    ensures Run(w, Rotate(p)) == v
  {
    LooksAside(w, p);
    var es := [Begin, Turn(p), Turn(p)];
    var moved := World(w.now.(files := w.now.files - {CERT}), w.aside[CERT := w.now.files[CERT]], MoveKey);
    Then(w, es, Turn(p), w.(rotor := MoveCert));
    FreshStill(w, p, moved);
    assert moved.now.files - {KEY} == map[];
    Then(w, es + [Turn(p)], Turn(p), moved);
    assert es + [Turn(p)] + [Turn(p)] == Rotate(p);
  }

  lemma FreshStill(w: World, p: nat, moved: World)
    requires Fresh(w, p) && CERT in w.now.files && moved.now.procs == w.now.procs
    requires moved.now.files == w.now.files - {CERT} && moved.aside == w.aside[CERT := w.now.files[CERT]]
    ensures Fresh(moved, p)
  {
    assert w.now.files[CERT] in w.now.files.Values;
  }

  /** The issuing process sees the world it would see with no rotation about. */
  lemma {:induction false} IssueIsAlone(v: World, s: State, p: nat, n: nat)
    requires v.now == FirstRun.After(ControlPlane, s, p, 0)
    ensures Run(v, Issue(p, n)) == v.(now := FirstRun.After(ControlPlane, s, p, n))
  {
    if n == 0 {
      assert Issue(p, 0) == [];
    } else {
      IssueIsAlone(v, s, p, n - 1);
      var before := FirstRun.After(ControlPlane, s, p, n - 1);
      FirstRun.Again(ControlPlane, s, p, n - 1, before);
      Then(v, Issue(p, n - 1), Ensure(Advance(p)), v.(now := before));
      assert Issue(p, n - 1) + [Ensure(Advance(p))] == Issue(p, n);
    }
  }

  /** A rotation left to itself puts the whole old pair aside and a whole new one, its own and written, in its place. */
  lemma RotatesThePair(w: World, p: nat, n: nat)
    requires w.rotor.Idle? && Fresh(w, p) && KEY !in w.aside && CERT !in w.aside && n >= 8
    requires w.now.files.Keys == {KEY, CERT}
    ensures Run(w, Rotate(p) + Issue(p, n))
         == World(State(map[KEY := p, CERT := p], w.now.filled + {(p, KEY), (p, CERT)}, w.now.procs[p := Done(true)]),
                  w.aside[CERT := w.now.files[CERT]][KEY := w.now.files[KEY]], Idle)
  {
    var s := w.now.(files := map[]);
    var v := World(FirstRun.With(s, p, Checking([])),
                   w.aside[CERT := w.now.files[CERT]][KEY := w.now.files[KEY]], Idle);
    MovesPair(w, p, v);
    RunAppend(w, Rotate(p), Issue(p, n));
    FirstRun.Starts(ControlPlane, s, p);
    IssueIsAlone(v, s, p, n);
    FirstRun.CreatesTheSet(ControlPlane, s, p, n);
    FirstRun.RunIsFold(ControlPlane, s, FirstRun.Alone(p, n));
  }

  /** With either file of an earlier rotation still aside a rotation changes nothing. */
  lemma RefusesWhileAside(w: World, p: nat)
    requires w.rotor.Idle? && Fresh(w, p) && (KEY in w.aside || CERT in w.aside)
    ensures Run(w, Rotate(p)) == w
  {
    var es := [Begin];
    assert Run(w, []) == w && [] + [Begin] == es;
    Then(w, [], Begin, w);
    var v := w.(rotor := if CERT in w.aside then Idle else ReadOldKey);
    Then(w, es, Turn(p), w.(rotor := ReadOldCert));
    Then(w, es + [Turn(p)], Turn(p), v);
    Then(w, es + [Turn(p)] + [Turn(p)], Turn(p), w);
    Then(w, es + [Turn(p)] + [Turn(p)] + [Turn(p)], Turn(p), w);
    assert es + [Turn(p)] + [Turn(p)] + [Turn(p)] + [Turn(p)] == Rotate(p);
  }

  /**
   With no certificate to move a rotation changes nothing; with a certificate and no key it strands the certificate.
   */
  lemma HalfAPairIsNotRotated(w: World, p: nat)
    requires w.rotor.Idle? && Fresh(w, p) && KEY !in w.aside && CERT !in w.aside
    requires KEY !in w.now.files || CERT !in w.now.files
    ensures Run(w, Rotate(p))
         == if CERT in w.now.files
            then World(w.now.(files := w.now.files - {CERT}), w.aside[CERT := w.now.files[CERT]], Idle)
            else w
  {
    LooksAside(w, p);
    var es := [Begin, Turn(p), Turn(p)];
    Then(w, es, Turn(p), w.(rotor := MoveCert));
    if CERT in w.now.files {
      var moved := World(w.now.(files := w.now.files - {CERT}), w.aside[CERT := w.now.files[CERT]], MoveKey);
      FreshStill(w, p, moved);
      Then(w, es + [Turn(p)], Turn(p), moved);
    } else {
      Then(w, es + [Turn(p)], Turn(p), w);
    }
    assert es + [Turn(p)] + [Turn(p)] == Rotate(p);
  }
}
