/**
 The laws asked of the ledger's line codec can all hold at once: a codec that keeps
 them, over any five fields, built from a prefix-free code between two braces.
 */
module LedgerCodec {
  import opened Text
  import opened Ledger

  function Unary(n: nat): string
  {
    if n == 0 then "0" else "1" + Unary(n - 1)
  }

  function Chars(s: string): string
  {
    if s == "" then "0" else "1" + Unary(s[0] as int) + Chars(s[1..])
  }

  function Body(e: Entry): string
  {
    Chars(e.key) + (Chars(e.kind) + (Chars(e.target) + (Unary(Zigzag(e.generation)) + Chars(e.response))))
  }

  function Zigzag(i: int): nat
  {
    if i >= 0 then 2 * i else -2 * i - 1
  }

  function Ser(e: Entry): string
  {
    "{" + Body(e) + "}"
  }

  ghost function Parse(s: string): (r: Option<Entry>)
    ensures r.Some? ==> Ser(r.value) == s
    ensures r.None? ==> forall e :: Ser(e) != s
  {
    if exists e :: Ser(e) == s then
      var e :| Ser(e) == s;
      Some(e)
    else None
  }

  lemma {:induction false} UnaryPrefixFree(a: nat, b: nat, x: string, y: string)
    requires Unary(a) + x == Unary(b) + y
    ensures a == b && x == y
  {
    var u, v := Unary(a) + x, Unary(b) + y;
    assert u[0] == Unary(a)[0] && v[0] == Unary(b)[0];
    if a > 0 && b > 0 {
      assert u[1..] == Unary(a - 1) + x && v[1..] == Unary(b - 1) + y;
      UnaryPrefixFree(a - 1, b - 1, x, y);
    } else {
      assert u[1..] == x && v[1..] == y;
    }
  }

  lemma CharsStep(a: string, x: string)
    requires a != ""
    ensures (Chars(a) + x)[1..] == Unary(a[0] as int) + (Chars(a[1..]) + x)
  {
  }

  lemma {:induction false} CharsPrefixFree(a: string, b: string, x: string, y: string)
    requires Chars(a) + x == Chars(b) + y
    ensures a == b && x == y
  {
    var u, v := Chars(a) + x, Chars(b) + y;
    assert u[0] == Chars(a)[0] && v[0] == Chars(b)[0];
    if a != "" && b != "" {
      var p, q := Chars(a[1..]) + x, Chars(b[1..]) + y;
      CharsStep(a, x);
      CharsStep(b, y);
      UnaryPrefixFree(a[0] as int, b[0] as int, p, q);
      CharsPrefixFree(a[1..], b[1..], x, y);
      assert a == [a[0]] + a[1..] && b == [b[0]] + b[1..];
    } else {
      assert u[1..] == x && v[1..] == y;
    }
  }

  lemma SerInjective(e: Entry, f: Entry)
    requires Ser(e) == Ser(f)
    ensures e == f
  {
    assert Ser(e)[1..|Ser(e)| - 1] == Body(e) && Ser(f)[1..|Ser(f)| - 1] == Body(f);
    var e4, f4 := Unary(Zigzag(e.generation)) + Chars(e.response), Unary(Zigzag(f.generation)) + Chars(f.response);
    var e3, f3 := Chars(e.target) + e4, Chars(f.target) + f4;
    CharsPrefixFree(e.key, f.key, Chars(e.kind) + e3, Chars(f.kind) + f3);
    CharsPrefixFree(e.kind, f.kind, e3, f3);
    CharsPrefixFree(e.target, f.target, e4, f4);
    UnaryPrefixFree(Zigzag(e.generation), Zigzag(f.generation), Chars(e.response), Chars(f.response));
    assert Chars(e.response) + "" == Chars(f.response) + "";
    CharsPrefixFree(e.response, f.response, "", "");
  }

  ghost predicate Bits(s: string)
  {
    forall i :: 0 <= i < |s| ==> s[i] == '0' || s[i] == '1'
  }

  lemma {:induction false} UnaryBits(n: nat)
    ensures Bits(Unary(n))
  {
    if n > 0 {
      UnaryBits(n - 1);
    }
  }

  lemma {:induction false} CharsBits(s: string)
    ensures Bits(Chars(s))
  {
    if s != "" {
      UnaryBits(s[0] as int);
      CharsBits(s[1..]);
    }
  }

  lemma BodyBits(e: Entry)
    ensures Bits(Body(e))
  {
    CharsBits(e.key);
    CharsBits(e.kind);
    CharsBits(e.target);
    UnaryBits(Zigzag(e.generation));
    CharsBits(e.response);
  }

  /** Braces stand at the two ends of a serialised entry and nowhere else. */
  lemma SerShape(e: Entry)
    ensures |Ser(e)| >= 2 && Ser(e)[0] == '{' && Last(Ser(e)) == '}'
    ensures forall i :: 0 < i < |Ser(e)| - 1 ==> Ser(e)[i] == '0' || Ser(e)[i] == '1'
  {
    BodyBits(e);
    var s := Ser(e);
    forall i | 0 < i < |s| - 1 ensures s[i] == '0' || s[i] == '1' {
      assert s[i] == Body(e)[i - 1];
    }
  }

  ghost const WITNESS: Codec := Codec(Ser, Parse)

  lemma ConcatInnerBrace(pieces: seq<string>)
    requires Fragments(WITNESS, pieces) && |pieces| >= 2
    ensures var at := |Concat(Init(pieces))|;
      0 < at < |Concat(pieces)| && Concat(pieces)[at] == '{'
  {
  }

  lemma GluedUnreadable(pieces: seq<string>, f: Entry)
    requires Fragments(WITNESS, pieces) && |pieces| >= 2
    ensures Concat(pieces) != Ser(f)
  {
    ConcatInnerBrace(pieces);
    SerShape(f);
  }

  lemma CutUnreadable(e: Entry, p: string, f: Entry)
    requires p <= Ser(e) && p != Ser(e)
    ensures p != Ser(f)
  {
    SerShape(e);
    SerShape(f);
    assert |p| > 0 ==> p[|p| - 1] == Ser(e)[|p| - 1];
  }

  lemma SerOneLine(e: Entry)
    ensures Free(Ser(e), IsBreak) && !Blank(Ser(e))
  {
    SerShape(e);
    var s := Ser(e);
    assert !IsSpace(s[0]);
  }

  lemma LawfulCodecExists()
    ensures Lawful(WITNESS)
  {
    forall e ensures Parse(Ser(e)) == Some(e) {
      SerInjective(e, Parse(Ser(e)).value);
    }
    forall e ensures Free(Ser(e), IsBreak) && !Blank(Ser(e)) {
      SerOneLine(e);
    }
    forall e, p | p <= Ser(e) && p != Ser(e) ensures Parse(p) == None {
      forall f ensures p != Ser(f) {
        CutUnreadable(e, p, f);
      }
    }
    forall pieces | Fragments(WITNESS, pieces) && |pieces| >= 2 ensures Parse(Concat(pieces)) == None {
      forall f ensures Concat(pieces) != Ser(f) {
        GluedUnreadable(pieces, f);
      }
    }
  }
}
