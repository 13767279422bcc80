/**
 The addresses the API can be reached at: the configured list, and the share of it that one account is
 told about. The hash that ranks routes is a parameter, one ranking per account.
 */
module Routes {
  import opened Text

  // ---------------------------------------------------------------- the configured list

  const SCHEME := "https://"

  predicate IsSlash(c: char)
  {
    c == '/'
  }

  function Clean(entry: string): string
  {
    TrimRight(Trim(entry, IsSpace), IsSlash)
  }

  /** Each wanted entry where it first occurs. */
  function Firsts(entries: seq<string>): seq<string>
  {
    if entries == [] then []
    else
      var before := Firsts(Init(entries));
      var route := Clean(Last(entries));
      if SCHEME <= route && route !in before then before + [route] else before
  }

  function Configured(setting: string): seq<string>
  {
    Firsts(Split(setting, IsComma))
  }

  method ConfiguredRoutes(setting: string) returns (seen: seq<string>)
    ensures seen == Configured(setting)
  {
    var entries := Split(setting, IsComma);
    seen := [];
    for i := 0 to |entries|
      invariant seen == Firsts(entries[..i])
    {
      assert Init(entries[..i + 1]) == entries[..i];
      var route := TrimRight(Trim(entries[i], IsSpace), IsSlash);
      if SCHEME <= route && route !in seen {
        seen := seen + [route];
      }
    }
    assert entries[..|entries|] == entries;
  }

  /** Cleaning takes off blanks around an entry and then the slashes at its end, and nothing else. */
  lemma CleanIs(entry: string) returns (lead: string, slashes: string, tail: string)
    ensures entry == lead + Clean(entry) + slashes + tail
    ensures All(lead, IsSpace) && (forall c | c in slashes :: c == '/') && All(tail, IsSpace)
    ensures Clean(entry) != "" ==> !IsSpace(Clean(entry)[0]) && Last(Clean(entry)) != '/'
    ensures Clean(entry) + slashes != "" ==> !IsSpace(Last(Clean(entry) + slashes))
  {
    lead := TrimLeftSplit(entry, IsSpace);
    tail := TrimRightSplit(TrimLeft(entry, IsSpace), IsSpace);
    slashes := TrimRightSplit(Trim(entry, IsSpace), IsSlash);
    assert Clean(entry) + slashes == Trim(entry, IsSpace);
    assert Clean(entry) + slashes + tail == TrimLeft(entry, IsSpace);
  }

  ghost predicate Distinct(routes: seq<string>)
  {
    forall i, j :: 0 <= i < j < |routes| ==> routes[i] != routes[j]
  }

  predicate Named(entries: seq<string>, route: string)
  {
    exists i :: 0 <= i < |entries| && Clean(entries[i]) == route
  }

  lemma NamedNext(entries: seq<string>, route: string)
    requires entries != []
    ensures Named(entries, route) <==> Named(Init(entries), route) || Clean(Last(entries)) == route
  {
    if Named(Init(entries), route) {
      var i :| 0 <= i < |Init(entries)| && Clean(Init(entries)[i]) == route;
      assert Clean(entries[i]) == route;
    }
    if Named(entries, route) && Clean(Last(entries)) != route {
      var i :| 0 <= i < |entries| && Clean(entries[i]) == route;
      assert Clean(Init(entries)[i]) == route;
    }
    if Clean(Last(entries)) == route {
      assert Clean(entries[|entries| - 1]) == route;
    }
  }

  /** Exactly the https entries; a malformed one costs no other. */
  lemma {:induction false} FirstsIff(entries: seq<string>, route: string)
    ensures Distinct(Firsts(entries))
    ensures route in Firsts(entries) <==> "https://" <= route && Named(entries, route)
  {
    if entries != [] {
      FirstsIff(Init(entries), route);
      NamedNext(entries, route);
    }
  }

  /** The first place an entry for `route` stands, or the number of entries. */
  function Place(entries: seq<string>, route: string): (n: nat)
    ensures n <= |entries|
    ensures n < |entries| ==> Clean(entries[n]) == route
    ensures forall i :: 0 <= i < n ==> Clean(entries[i]) != route
  {
    if entries == [] then 0
    else
      var n := Place(Init(entries), route);
      if n < |entries| - 1 || Clean(Last(entries)) == route then n else |entries|
  }

  lemma PlaceInit(entries: seq<string>, route: string)
    requires entries != [] && Place(Init(entries), route) < |entries| - 1
    ensures Place(entries, route) == Place(Init(entries), route)
  {
  }

  /** The list keeps the order in which routes are first named. */
  lemma {:induction false} FirstsInOrder(entries: seq<string>, i: nat, j: nat)
    requires i < j < |Firsts(entries)|
    ensures Place(entries, Firsts(entries)[i]) < Place(entries, Firsts(entries)[j]) < |entries|
  {
    var before, routes := Firsts(Init(entries)), Firsts(entries);
    if j < |before| {
      FirstsInOrder(Init(entries), i, j);
      PlaceInit(entries, routes[i]);
      PlaceInit(entries, routes[j]);
    } else {
      FirstsIff(Init(entries), routes[i]);
      assert routes[i] in before;
      var k :| 0 <= k < |Init(entries)| && Clean(Init(entries)[k]) == routes[i];
      assert Place(Init(entries), routes[i]) <= k;
      PlaceInit(entries, routes[i]);
      FirstsIff(Init(entries), routes[j]);
      assert Place(Init(entries), routes[j]) == |entries| - 1;
    }
  }

  // ---------------------------------------------------------------- one account's share

  /** A route's rank for one account: the digest of the account and the route, as a number. */
  type Rank = string -> nat

  ghost predicate RanksApart(rank: Rank, routes: set<string>)
  {
    forall p, q | p in routes && q in routes && rank(p) == rank(q) :: p == q
  }

  function Insert(rank: Rank, x: string, s: seq<string>): seq<string>
  {
    if s == [] || rank(x) < rank(s[0]) then [x] + s else [s[0]] + Insert(rank, x, s[1..])
  }

  /** Python's stable `sorted(..., key=rank)`. */
  function Ranked(rank: Rank, routes: seq<string>): seq<string>
  {
    if routes == [] then [] else Insert(rank, Last(routes), Ranked(rank, Init(routes)))
  }

  function Elements(s: seq<string>): set<string>
  {
    set r | r in s
  }

  function Filter(routes: seq<string>, kept: set<string>): seq<string>
  {
    if routes == [] then []
    else Filter(Init(routes), kept) + if Last(routes) in kept then [Last(routes)] else []
  }

  /** The routes at the address the request came in on; an absent or empty host names none. */
  function AskedThrough(routes: seq<string>, netloc: string -> string, host: Option<string>): set<string>
  {
    if host.None? || host.value == "" then {} else set r | r in routes && netloc(r) == host.value
  }

  function RoutesForAccount(rank: Rank, routes: seq<string>, share: nat, netloc: string -> string,
      host: Option<string>): seq<string>
  {
    if share == 0 || share >= |routes| then routes
    else
      var ranked := Ranked(rank, routes);
      var lowest := if share <= |ranked| then ranked[..share] else ranked;
      Filter(routes, Elements(lowest) + AskedThrough(routes, netloc, host))
  }

  // ---------------------------------------------------------------- the share as a set

  function Lower(rank: Rank, routes: set<string>, r: string): set<string>
  {
    set q | q in routes && rank(q) < rank(r)
  }

  /** The routes with fewer than `share` routes ranked below them. */
  function Share(rank: Rank, routes: set<string>, share: nat): set<string>
  {
    set r | r in routes && |Lower(rank, routes, r)| < share
  }

  ghost predicate Rising(rank: Rank, s: seq<string>)
  {
    forall i, j :: 0 <= i < j < |s| ==> rank(s[i]) < rank(s[j])
  }

  lemma {:induction false} InsertHolds(rank: Rank, x: string, s: seq<string>)
    ensures multiset(Insert(rank, x, s)) == multiset(s) + multiset{x}
  {
    if s != [] && rank(s[0]) <= rank(x) {
      InsertHolds(rank, x, s[1..]);
      assert s == [s[0]] + s[1..];
    }
  }

  lemma InsertAny(rank: Rank, x: string, s: seq<string>, y: string)
    ensures y in Insert(rank, x, s) <==> y == x || y in s
  {
  }

  lemma {:induction false} InsertRises(rank: Rank, x: string, s: seq<string>)
    requires Rising(rank, s) && forall y | y in s :: rank(y) != rank(x)
    ensures Rising(rank, Insert(rank, x, s))
  {
    if s != [] && rank(s[0]) <= rank(x) {
      var rest := Insert(rank, x, s[1..]);
      InsertRises(rank, x, s[1..]);
      forall j | 0 <= j < |rest|
        ensures rank(s[0]) < rank(rest[j])
      {
        InsertAny(rank, x, s[1..], rest[j]);
      }
    }
  }

  lemma {:induction false} RankedHolds(rank: Rank, routes: seq<string>)
    ensures multiset(Ranked(rank, routes)) == multiset(routes)
  {
    if routes != [] {
      RankedHolds(rank, Init(routes));
      InsertHolds(rank, Last(routes), Ranked(rank, Init(routes)));
      assert routes == Init(routes) + [Last(routes)];
    }
  }

  lemma LastApart(rank: Rank, routes: seq<string>, y: string)
    requires Distinct(routes) && RanksApart(rank, Elements(routes)) && routes != [] && y in Ranked(rank, Init(routes))
    ensures rank(y) != rank(Last(routes))
  {
    RankedHolds(rank, Init(routes));
    assert y in multiset(Init(routes));
    assert y in Elements(routes) && Last(routes) in Elements(routes);
  }

  lemma {:induction false} RankedRises(rank: Rank, routes: seq<string>)
    requires Distinct(routes) && RanksApart(rank, Elements(routes))
    ensures Rising(rank, Ranked(rank, routes))
  {
    if routes != [] {
      assert Elements(Init(routes)) <= Elements(routes);
      RankedRises(rank, Init(routes));
      forall y | y in Ranked(rank, Init(routes))
        ensures rank(y) != rank(Last(routes))
      {
        LastApart(rank, routes, y);
      }
      InsertRises(rank, Last(routes), Ranked(rank, Init(routes)));
    }
  }

  lemma {:induction false} RisingSize(rank: Rank, s: seq<string>)
    requires Rising(rank, s)
    ensures |Elements(s)| == |s|
  {
    if s != [] {
      RisingSize(rank, Init(s));
      assert Elements(s) == Elements(Init(s)) + {Last(s)};
    }
  }

  /** In ascending order, exactly the routes before one are ranked below it. */
  lemma LowerIsPrefix(rank: Rank, s: seq<string>, i: nat)
    requires Rising(rank, s) && i < |s|
    ensures |Lower(rank, Elements(s), s[i])| == i
  {
    assert Lower(rank, Elements(s), s[i]) == Elements(s[..i]);
    RisingSize(rank, s[..i]);
  }

  lemma PrefixIsShare(rank: Rank, s: seq<string>, share: nat)
    requires Rising(rank, s) && share <= |s|
    ensures Elements(s[..share]) == Share(rank, Elements(s), share)
  {
    forall i: nat | i < |s|
      ensures s[i] in Share(rank, Elements(s), share) <==> i < share
    {
      LowerIsPrefix(rank, s, i);
    }
  }

  lemma SameElements(a: seq<string>, b: seq<string>)
    requires multiset(a) == multiset(b)
    ensures Elements(a) == Elements(b) && |a| == |b|
  {
    assert |a| == |multiset(a)| == |multiset(b)| == |b|;
    assert forall r :: r in a <==> r in multiset(a);
    assert forall r :: r in b <==> r in multiset(b);
  }

  lemma {:induction false} FilterIff(routes: seq<string>, kept: set<string>, r: string)
    ensures r in Filter(routes, kept) <==> r in routes && r in kept
  {
    if routes != [] {
      FilterIff(Init(routes), kept, r);
      assert routes == Init(routes) + [Last(routes)];
    }
  }

  /** Sorting and slicing gives an account exactly its share, and the address it asked through. */
  lemma AccountGetsIff(rank: Rank, routes: seq<string>, share: nat, netloc: string -> string, host: Option<string>,
      r: string)
    requires Distinct(routes) && RanksApart(rank, Elements(routes)) && 0 < share
    ensures r in RoutesForAccount(rank, routes, share, netloc, host)
       <==> r in Share(rank, Elements(routes), share) || r in AskedThrough(routes, netloc, host)
  {
    var ranked := Ranked(rank, routes);
    RankedHolds(rank, routes);
    RankedRises(rank, routes);
    SameElements(ranked, routes);
    if share < |routes| {
      PrefixIsShare(rank, ranked, share);
      FilterIff(routes, Elements(ranked[..share]) + AskedThrough(routes, netloc, host), r);
    } else if r in routes {
      RisingSize(rank, ranked);
      SubsetSize(Lower(rank, Elements(routes), r), Elements(routes) - {r});
    }
  }

  /** The share never drops the address the account asked through. */
  lemma AskedThroughStays(rank: Rank, routes: seq<string>, share: nat, netloc: string -> string, host: string,
      r: string)
    requires r in routes && host != "" && netloc(r) == host
    ensures r in RoutesForAccount(rank, routes, share, netloc, Some(host))
  {
    if 0 < share < |routes| {
      var ranked := Ranked(rank, routes);
      var lowest := if share <= |ranked| then ranked[..share] else ranked;
      FilterIff(routes, Elements(lowest) + AskedThrough(routes, netloc, Some(host)), r);
    }
  }

  lemma ShareSize(rank: Rank, routes: seq<string>, share: nat)
    requires Distinct(routes) && RanksApart(rank, Elements(routes)) && share <= |routes|
    ensures |Share(rank, Elements(routes), share)| == share
  {
    var ranked := Ranked(rank, routes);
    RankedHolds(rank, routes);
    RankedRises(rank, routes);
    SameElements(ranked, routes);
    PrefixIsShare(rank, ranked, share);
    RisingSize(rank, ranked[..share]);
  }

  lemma ElementsLast(routes: seq<string>)
    requires Distinct(routes) && routes != []
    ensures Elements(routes) == Elements(Init(routes)) + {Last(routes)} && Last(routes) !in Elements(Init(routes))
  {
    assert routes == Init(routes) + [Last(routes)];
  }

  lemma OneMore(kept: set<string>, before: set<string>, last: string)
    requires last !in before
    ensures |kept * (before + {last})| == |kept * before| + if last in kept then 1 else 0
  {
    if last in kept {
      assert kept * (before + {last}) == kept * before + {last};
    } else {
      assert kept * (before + {last}) == kept * before;
    }
  }

  lemma {:induction false} FilterSize(routes: seq<string>, kept: set<string>)
    requires Distinct(routes)
    ensures |Filter(routes, kept)| == |kept * Elements(routes)|
  {
    if routes == [] {
      assert kept * Elements(routes) == {};
    } else {
      FilterSize(Init(routes), kept);
      ElementsLast(routes);
      OneMore(kept, Elements(Init(routes)), Last(routes));
    }
  }

  lemma UnionSize(a: set<string>, b: set<string>)
    ensures |a| <= |a + b| <= |a| + |b|
  {
    SubsetSize(a, a + b);
    assert a + b == a + (b - a);
    SubsetSize(b - a, b);
  }

  /** The routes ranked lowest, taken from the sorted list. */
  lemma LowestRoutes(rank: Rank, routes: seq<string>, share: nat)
    requires Distinct(routes) && RanksApart(rank, Elements(routes)) && share <= |routes|
    ensures var ranked := Ranked(rank, routes);
      share <= |ranked| && |Elements(ranked[..share])| == share && Elements(ranked[..share]) <= Elements(routes)
  {
    var ranked := Ranked(rank, routes);
    RankedHolds(rank, routes);
    RankedRises(rank, routes);
    SameElements(ranked, routes);
    RisingSize(rank, ranked[..share]);
    assert Elements(ranked[..share]) <= Elements(ranked);
  }

  /** Never fewer than the share, and no more than the share and the routes asked through. */
  lemma AnswerSize(rank: Rank, routes: seq<string>, share: nat, netloc: string -> string, host: Option<string>)
    requires Distinct(routes) && RanksApart(rank, Elements(routes)) && 0 < share < |routes|
    ensures share <= |RoutesForAccount(rank, routes, share, netloc, host)|
      <= share + |AskedThrough(routes, netloc, host)|
  {
    LowestRoutes(rank, routes, share);
    var kept, asked := Elements(Ranked(rank, routes)[..share]), AskedThrough(routes, netloc, host);
    FilterSize(routes, kept + asked);
    assert asked <= Elements(routes);
    assert (kept + asked) * Elements(routes) == kept + asked;
    UnionSize(kept, asked);
  }

  /** The answer lists routes in the order they are configured in. */
  lemma {:induction false} FilterInOrder(routes: seq<string>, kept: set<string>, i: nat, j: nat)
      returns (a: nat, b: nat)
    requires i < j < |Filter(routes, kept)|
    ensures a < b < |routes| && Filter(routes, kept)[i] == routes[a] && Filter(routes, kept)[j] == routes[b]
  {
    var before := Filter(Init(routes), kept);
    if j < |before| {
      a, b := FilterInOrder(Init(routes), kept, i, j);
    } else {
      FilterIff(Init(routes), kept, before[i]);
      a :| 0 <= a < |routes| - 1 && Init(routes)[a] == before[i];
      b := |routes| - 1;
    }
  }

  /** A share of none, or of as many as there are, is the whole list as it is. */
  lemma WholeList(rank: Rank, routes: seq<string>, share: nat, netloc: string -> string, host: Option<string>)
    requires share == 0 || share >= |routes|
    ensures RoutesForAccount(rank, routes, share, netloc, host) == routes
  {
  }

  /** An account is told its routes in the order they are configured in. */
  lemma AnswerInOrder(rank: Rank, routes: seq<string>, share: nat, netloc: string -> string, host: Option<string>,
      i: nat, j: nat)
      returns (a: nat, b: nat)
    requires i < j < |RoutesForAccount(rank, routes, share, netloc, host)|
    ensures var answer := RoutesForAccount(rank, routes, share, netloc, host);
      a < b < |routes| && answer[i] == routes[a] && answer[j] == routes[b]
  {
    if share == 0 || share >= |routes| {
      a, b := i, j;
    } else {
      var ranked := Ranked(rank, routes);
      var lowest := if share <= |ranked| then ranked[..share] else ranked;
      a, b := FilterInOrder(routes, Elements(lowest) + AskedThrough(routes, netloc, host), i, j);
    }
  }

  /** The order of the configured list does not decide who gets what. */
  lemma OrderDoesNotMatter(rank: Rank, a: seq<string>, b: seq<string>, share: nat, netloc: string -> string,
      host: Option<string>)
    requires Distinct(a) && Distinct(b) && multiset(a) == multiset(b) && RanksApart(rank, Elements(a))
    ensures Elements(RoutesForAccount(rank, a, share, netloc, host))
         == Elements(RoutesForAccount(rank, b, share, netloc, host))
  {
    SameElements(a, b);
    if 0 < share {
      assert AskedThrough(a, netloc, host) == AskedThrough(b, netloc, host) by {
        assert forall r :: r in a <==> r in Elements(a);
        assert forall r :: r in b <==> r in Elements(b);
      }
      forall r
        ensures r in RoutesForAccount(rank, a, share, netloc, host)
          <==> r in RoutesForAccount(rank, b, share, netloc, host)
      {
        AccountGetsIff(rank, a, share, netloc, host, r);
        AccountGetsIff(rank, b, share, netloc, host, r);
      }
    }
  }

  // ---------------------------------------------------------------- adding a route

  lemma LowerGrows(rank: Rank, routes: set<string>, x: string, r: string)
    requires x !in routes
    ensures |Lower(rank, routes + {x}, r)| == |Lower(rank, routes, r)| + if rank(x) < rank(r) then 1 else 0
  {
    if rank(x) < rank(r) {
      assert Lower(rank, routes + {x}, r) == Lower(rank, routes, r) + {x};
    } else {
      assert Lower(rank, routes + {x}, r) == Lower(rank, routes, r);
    }
  }

  lemma LowerTells(rank: Rank, routes: set<string>, p: string, q: string)
    requires p in routes && rank(p) < rank(q)
    ensures |Lower(rank, routes, p)| < |Lower(rank, routes, q)|
  {
    var below := Lower(rank, routes, p) + {p};
    assert below <= Lower(rank, routes, q);
    SubsetSize(below, Lower(rank, routes, q));
  }

  lemma {:induction false} SubsetSize(a: set<string>, b: set<string>)
    requires a <= b
    ensures |a| <= |b|
    decreases a
  {
    if a != {} {
      var x :| x in a;
      SubsetSize(a - {x}, b - {x});
    }
  }

  /**
   A new route enters an account's share or leaves it as it was; it brings in nothing else and puts out at most one.
   */
  lemma AddingRoute(rank: Rank, routes: set<string>, x: string, share: nat)
    requires x !in routes && RanksApart(rank, routes)
    ensures var before, after := Share(rank, routes, share), Share(rank, routes + {x}, share);
      && after - before <= {x}
      && (forall p, q | p in before - after && q in before - after :: p == q)
      && (before - after != {} ==> x in after)
  {
    var before, after := Share(rank, routes, share), Share(rank, routes + {x}, share);
    forall r | r in routes
      ensures r in after ==> r in before
      ensures r in before && r !in after ==> rank(x) < rank(r) && |Lower(rank, routes, r)| == share - 1
    {
      LowerGrows(rank, routes, x, r);
    }
    forall p, q | p in before - after && q in before - after
      ensures p == q
    {
      if rank(p) < rank(q) {
        LowerTells(rank, routes, p, q);
      } else if rank(q) < rank(p) {
        LowerTells(rank, routes, q, p);
      }
    }
    if before - after != {} {
      var r :| r in before - after;
      LowerGrows(rank, routes, x, x);
      SubsetSize(Lower(rank, routes, x), Lower(rank, routes, r));
    }
  }

  lemma AskedGrows(routes: seq<string>, extended: seq<string>, x: string, netloc: string -> string,
      host: Option<string>, r: string)
    requires Elements(extended) == Elements(routes) + {x}
    ensures r in AskedThrough(routes, netloc, host) ==> r in AskedThrough(extended, netloc, host)
    ensures r in AskedThrough(extended, netloc, host) ==> r in AskedThrough(routes, netloc, host) || r == x
  {
    assert r in extended <==> r in Elements(extended);
    assert r in routes <==> r in Elements(routes);
  }

  /** Configuring one more route tells an account of no other new one, and drops at most one it was told of. */
  lemma AddingToTheList(rank: Rank, routes: seq<string>, extended: seq<string>, x: string, share: nat,
      netloc: string -> string, host: Option<string>)
    requires Distinct(routes) && Distinct(extended) && RanksApart(rank, Elements(extended)) && 0 < share
    requires x !in routes && Elements(extended) == Elements(routes) + {x}
    ensures var before, after := Elements(RoutesForAccount(rank, routes, share, netloc, host)),
      Elements(RoutesForAccount(rank, extended, share, netloc, host));
      after - before <= {x} && forall p, q | p in before - after && q in before - after :: p == q
  {
    var before := RoutesForAccount(rank, routes, share, netloc, host);
    var after := RoutesForAccount(rank, extended, share, netloc, host);
    AddingRoute(rank, Elements(routes), x, share);
    forall r
      ensures r in after && r !in before ==> r == x
      ensures r in before && r !in after ==>
        r in Share(rank, Elements(routes), share) - Share(rank, Elements(extended), share)
    {
      AccountGetsIff(rank, routes, share, netloc, host, r);
      AccountGetsIff(rank, extended, share, netloc, host, r);
      AskedGrows(routes, extended, x, netloc, host, r);
    }
  }
}
