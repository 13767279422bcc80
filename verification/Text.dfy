/** Splitting and joining text, shared by every component that reads lines or lists. */
module Text {

  datatype Option<+T> = None | Some(value: T)

  /** The pieces of `s` between the characters `sep` accepts; always at least one piece. */
  function Split(s: string, sep: char -> bool): (pieces: seq<string>)
    ensures |pieces| >= 1
  {
    if s == "" then [""]
    else if sep(s[0]) then [""] + Split(s[1..], sep)
    else
      Prepend(s[0], Split(s[1..], sep))
  }

  function Join(pieces: seq<string>, c: char): string
  {
    if pieces == [] then ""
    else if |pieces| == 1 then pieces[0]
    else pieces[0] + [c] + Join(pieces[1..], c)
  }

  ghost predicate Free(s: string, sep: char -> bool)
  {
    forall i :: 0 <= i < |s| ==> !sep(s[i])
  }

  function Last<T>(s: seq<T>): T
    requires s != []
  {
    s[|s| - 1]
  }

  function Init<T>(s: seq<T>): seq<T>
    requires s != []
  {
    s[..|s| - 1]
  }

  /** Two runs of pieces where the last piece of the first continues into the second. */
  function Glue(xs: seq<string>, ys: seq<string>): seq<string>
    requires xs != [] && ys != []
  {
    Init(xs) + [Last(xs) + ys[0]] + ys[1..]
  }

  function Prepend(c: char, xs: seq<string>): seq<string>
    requires xs != []
  {
    [[c] + xs[0]] + xs[1..]
  }

  lemma GluePrepend(c: char, xs: seq<string>, ys: seq<string>)
    requires xs != [] && ys != []
    ensures Glue(Prepend(c, xs), ys) == Prepend(c, Glue(xs, ys))
  {
    if |xs| == 1 {
      assert [c] + (xs[0] + ys[0]) == [c] + xs[0] + ys[0];
    }
  }

  lemma GlueCons(p: string, xs: seq<string>, ys: seq<string>)
    requires xs != [] && ys != []
    ensures Glue([p] + xs, ys) == [p] + Glue(xs, ys)
  {
  }

  lemma GlueEmpty(ys: seq<string>)
    requires ys != []
    ensures Glue([""], ys) == ys
  {
    assert "" + ys[0] == ys[0];
  }

  /** Text appended to `a` continues its last piece. */
  lemma {:induction false} SplitAppend(a: string, b: string, sep: char -> bool)
    ensures Split(a + b, sep) == Glue(Split(a, sep), Split(b, sep))
  {
    var ys := Split(b, sep);
    if a == "" {
      assert a + b == b;
      GlueEmpty(ys);
    } else {
      var xs := Split(a[1..], sep);
      SplitAppend(a[1..], b, sep);
      assert (a + b)[1..] == a[1..] + b;
      if sep(a[0]) {
        GlueCons("", xs, ys);
      } else {
        GluePrepend(a[0], xs, ys);
      }
    }
  }

  lemma {:induction false} SplitFree(s: string, sep: char -> bool)
    requires Free(s, sep)
    ensures Split(s, sep) == [s]
  {
    if s != "" {
      SplitFree(s[1..], sep);
      assert [s[0]] + s[1..] == s;
    }
  }

  /** Splitting undoes joining, provided no piece holds a separator. */
  lemma {:induction false} SplitJoin(pieces: seq<string>, c: char, sep: char -> bool)
    requires pieces != [] && sep(c)
    requires forall i :: 0 <= i < |pieces| ==> Free(pieces[i], sep)
    ensures Split(Join(pieces, c), sep) == pieces
  {
    SplitFree(pieces[0], sep);
    if |pieces| > 1 {
      var rest := Join(pieces[1..], c);
      SplitJoin(pieces[1..], c, sep);
      SplitAppend(pieces[0], [c] + rest, sep);
      assert ([c] + rest)[1..] == rest;
      assert pieces[0] + [c] + rest == pieces[0] + ([c] + rest);
      assert Split([c] + rest, sep) == [""] + pieces[1..];
      assert pieces[0] + "" == pieces[0];
    }
  }

  lemma JoinPrepend(x: char, pieces: seq<string>, c: char)
    requires pieces != []
    ensures Join(Prepend(x, pieces), c) == [x] + Join(pieces, c)
  {
    assert Prepend(x, pieces)[1..] == pieces[1..];
    if |pieces| > 1 {
      assert [x] + pieces[0] + [c] + Join(pieces[1..], c) == [x] + (pieces[0] + [c] + Join(pieces[1..], c));
    }
  }

  /** Joining undoes splitting at one character, and no piece holds it. */
  lemma {:induction false} JoinSplit(s: string, c: char, sep: char -> bool)
    requires forall x :: sep(x) <==> x == c
    ensures Join(Split(s, sep), c) == s
    ensures forall i :: 0 <= i < |Split(s, sep)| ==> Free(Split(s, sep)[i], sep)
  {
    if s != "" {
      var rest := Split(s[1..], sep);
      JoinSplit(s[1..], c, sep);
      assert s == [s[0]] + s[1..];
      if sep(s[0]) {
        assert ([""] + rest)[1..] == rest;
        assert "" + [c] + Join(rest, c) == s;
      } else {
        JoinPrepend(s[0], rest, c);
      }
    }
  }

  function TrimLeft(s: string, space: char -> bool): string
  {
    if s != "" && space(s[0]) then TrimLeft(s[1..], space) else s
  }

  function TrimRight(s: string, space: char -> bool): string
  {
    if s != "" && space(Last(s)) then TrimRight(Init(s), space) else s
  }

  function Trim(s: string, space: char -> bool): string
  {
    TrimRight(TrimLeft(s, space), space)
  }

  /** Nothing to trim at either end. */
  predicate Trimmed(s: string, space: char -> bool)
  {
    s == "" || (!space(s[0]) && !space(Last(s)))
  }

  ghost predicate All(s: string, p: char -> bool)
  {
    forall i :: 0 <= i < |s| ==> p(s[i])
  }

  /** Trimming takes off characters to trim, and all that stand at that end. */
  lemma {:induction false} TrimLeftSplit(s: string, space: char -> bool) returns (lead: string)
    ensures s == lead + TrimLeft(s, space) && All(lead, space)
    ensures TrimLeft(s, space) != "" ==> !space(TrimLeft(s, space)[0])
  {
    if s != "" && space(s[0]) {
      var rest := TrimLeftSplit(s[1..], space);
      lead := [s[0]] + rest;
    } else {
      lead := "";
    }
  }

  lemma {:induction false} TrimRightSplit(s: string, space: char -> bool) returns (tail: string)
    ensures s == TrimRight(s, space) + tail && All(tail, space)
    ensures TrimRight(s, space) != "" ==> !space(Last(TrimRight(s, space)))
  {
    if s != "" && space(Last(s)) {
      var rest := TrimRightSplit(Init(s), space);
      tail := rest + [Last(s)];
    } else {
      tail := "";
    }
  }

  lemma {:induction false} TrimLeftPast(lead: string, s: string, space: char -> bool)
    requires All(lead, space) && (s == "" || !space(s[0]))
    ensures TrimLeft(lead + s, space) == s
  {
    if lead == "" {
      assert lead + s == s;
    } else {
      TrimLeftPast(lead[1..], s, space);
      assert (lead + s)[1..] == lead[1..] + s;
    }
  }

  lemma {:induction false} TrimRightPast(s: string, tail: string, space: char -> bool)
    requires All(tail, space) && (s == "" || !space(Last(s)))
    ensures TrimRight(s + tail, space) == s
  {
    if tail == "" {
      assert s + tail == s;
    } else {
      TrimRightPast(s, Init(tail), space);
      assert Init(s + tail) == s + Init(tail);
    }
  }

  /** Trimming takes off exactly what stands around the text. */
  lemma TrimAround(lead: string, s: string, tail: string, space: char -> bool)
    requires All(lead, space) && All(tail, space) && Trimmed(s, space)
    ensures Trim(lead + s + tail, space) == s
  {
    if s == "" {
      assert lead + s + tail == (lead + tail) + "";
      TrimLeftPast(lead + tail, "", space);
    } else {
      assert lead + s + tail == lead + (s + tail);
      TrimLeftPast(lead, s + tail, space);
      TrimRightPast(s, tail, space);
    }
  }

  /** Whatever is trimmed stands between what was taken off. */
  lemma TrimSplit(s: string, space: char -> bool) returns (lead: string, tail: string)
    ensures s == lead + Trim(s, space) + tail && All(lead, space) && All(tail, space)
    ensures Trimmed(Trim(s, space), space)
  {
    lead := TrimLeftSplit(s, space);
    tail := TrimRightSplit(TrimLeft(s, space), space);
    assert TrimLeft(s, space) == Trim(s, space) + tail;
  }

  /** Trimming leaves nothing exactly when there is nothing else. */
  lemma TrimEmptyIff(s: string, space: char -> bool)
    ensures Trim(s, space) == "" <==> All(s, space)
  {
    if All(s, space) {
      TrimAround(s, "", "", space);
      assert s + "" + "" == s;
    } else {
      var lead, tail := TrimSplit(s, space);
      assert Trim(s, space) == "" ==> s == lead + tail;
    }
  }

  predicate IsComma(c: char)
  {
    c == ','
  }

  /** Where `str.splitlines` breaks a line. A CR LF pair gives one extra, blank piece. */
  predicate IsBreak(c: char)
  {
    c in {'\n', '\r', '\U{0B}', '\U{0C}', '\U{1C}', '\U{1D}', '\U{1E}', '\U{85}', '\U{2028}', '\U{2029}'}
  }

  /** What `str.strip` removes. */
  predicate IsSpace(c: char)
  {
    IsBreak(c) || c in {' ', '\t', '\U{1F}', '\U{A0}', '\U{1680}', '\U{202F}', '\U{205F}', '\U{3000}'}
    || '\U{2000}' <= c <= '\U{200A}'
  }

  /** What `String.prototype.trim` removes. */
  predicate IsTrimmed(c: char)
  {
    c in {' ', '\t', '\n', '\r', '\U{0B}', '\U{0C}', '\U{A0}', '\U{1680}', '\U{2028}', '\U{2029}',
          '\U{202F}', '\U{205F}', '\U{3000}', '\U{FEFF}'} || '\U{2000}' <= c <= '\U{200A}'
  }

  /** Lower case, for ASCII letters. */
  function LowerChar(c: char): char
  {
    if 'A' <= c <= 'Z' then c - 'A' + 'a' else c
  }

  function Lower(s: string): string
  {
    if s == "" then "" else [LowerChar(s[0])] + Lower(s[1..])
  }

  /** Letters of either case come out small, everything else as it is. */
  lemma {:induction false} LowerAt(s: string, i: nat)
    requires i < |s|
    ensures |Lower(s)| == |s|
    ensures Lower(s)[i] == if 'A' <= s[i] <= 'Z' then (s[i] as int + 32) as char else s[i]
  {
    if |s| > 1 {
      LowerAt(s[1..], if i == 0 then 0 else i - 1);
    }
  }

  /** A run of steps, one for each event. */
  function Fold<S, E>(step: (S, E) -> S, s: S, es: seq<E>): S
  {
    if es == [] then s else step(Fold(step, s, Init(es)), Last(es))
  }

  lemma FoldNext<S, E>(step: (S, E) -> S, s: S, es: seq<E>, e: E)
    ensures Fold(step, s, es + [e]) == step(Fold(step, s, es), e)
  {
    assert Init(es + [e]) == es;
  }

  lemma {:induction false} FoldAppend<S, E>(step: (S, E) -> S, s: S, es: seq<E>, more: seq<E>)
    ensures Fold(step, s, es + more) == Fold(step, Fold(step, s, es), more)
  {
    if more == [] {
      assert es + more == es;
    } else {
      FoldAppend(step, s, es, Init(more));
      assert Init(es + more) == es + Init(more);
    }
  }
}
