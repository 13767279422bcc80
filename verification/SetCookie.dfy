/**
 Parsing one Set-Cookie header value. Attributes are text: a key as spelled and, after an equals sign,
 a value. `parseInt` and `Date` are parameters.
 */
module SetCookie {
  import opened Text

  datatype SameSite = Strict | Lax | NoneSent

  datatype Cookie = Cookie(
    name: string, value: string, path: Option<string>, maxAge: Option<int>, expires: Option<int>,
    secure: bool, httpOnly: bool, sameSite: Option<SameSite>)

  datatype Numbers = Numbers(parseInt: string -> Option<int>, date: string -> Option<int>)

  predicate IsSemicolon(c: char)
  {
    c == ';'
  }

  predicate IsEquals(c: char)
  {
    c == '='
  }

  function StripQuotes(value: string): string
  {
    if Quoted(value) then value[1..|value| - 1] else value
  }

  predicate Quoted(value: string)
  {
    |value| >= 2 && value[0] == '"' && Last(value) == '"'
  }

  // ---------------------------------------------------------------- what an attribute means

  /** An attribute: its key as spelled, and its value, empty when there is none. */
  datatype Attribute = Attribute(key: string, value: string)

  function SameSiteOf(value: string): Option<SameSite>
  {
    var v := Lower(value);
    if v == "strict" then Some(Strict)
    else if v == "lax" then Some(Lax)
    else if v == "none" then Some(NoneSent)
    else None
  }

  /** A value that is not understood leaves the cookie as it was. */
  function Or<T>(found: Option<T>, otherwise: Option<T>): Option<T>
  {
    if found.Some? then found else otherwise
  }

  datatype Key = Path | MaxAge | Expires | Secure | HttpOnly | Site | Unknown

  /** Keys are recognised in any case. */
  function KeyOf(spelled: string): Key
  {
    match Lower(spelled)
    case "path" => Path
    case "max-age" => MaxAge
    case "expires" => Expires
    case "secure" => Secure
    case "httponly" => HttpOnly
    case "samesite" => Site
    case _ => Unknown
  }

  /** What an attribute asks for, its spelling aside. */
  datatype Setting = Setting(key: Key, value: string)

  function SettingOf(a: Attribute): Setting
  {
    Setting(KeyOf(a.key), a.value)
  }

  function Settings(attributes: seq<Attribute>): (r: seq<Setting>)
    ensures |r| == |attributes|
  {
    seq(|attributes|, i requires 0 <= i < |attributes| => SettingOf(attributes[i]))
  }

  function Set(c: Cookie, s: Setting, numbers: Numbers): Cookie
  {
    match s.key
    case Path => c.(path := Some(s.value))
    case MaxAge => c.(maxAge := Or(numbers.parseInt(s.value), c.maxAge))
    case Expires => c.(expires := Or(numbers.date(s.value), c.expires))
    case Secure => c.(secure := true)
    case HttpOnly => c.(httpOnly := true)
    case Site => c.(sameSite := Or(SameSiteOf(s.value), c.sameSite))
    case Unknown => c
  }

  function Plain(name: string, value: string): Cookie
  {
    Cookie(name, value, None, None, None, false, false, None)
  }

  function Meaning(name: string, value: string, settings: seq<Setting>, numbers: Numbers): Cookie
  {
    if settings == [] then Plain(name, value)
    else Set(Meaning(name, value, Init(settings), numbers), Last(settings), numbers)
  }

  // ---------------------------------------------------------------- parsing

  function ReadAttribute(text: string): Attribute
  {
    var pieces := Split(text, IsEquals);
    Attribute(Trim(pieces[0], IsTrimmed), Trim(Join(pieces[1..], '='), IsTrimmed))
  }

  function ReadAll(texts: seq<string>): (r: seq<Attribute>)
    ensures |r| == |texts|
  {
    seq(|texts|, i requires 0 <= i < |texts| => ReadAttribute(texts[i]))
  }

  /** The first place of an equals sign, or the length of the text. */
  function IndexOfEquals(s: string): (n: nat)
    ensures n <= |s|
    ensures n < |s| ==> s[n] == '='
    ensures Free(s[..n], IsEquals)
  {
    if s == "" || s[0] == '=' then 0 else 1 + IndexOfEquals(s[1..])
  }

  function Parsed(header: string, numbers: Numbers): Option<Cookie>
  {
    var pieces := Split(header, IsSemicolon);
    var pair := pieces[0];
    var at := IndexOfEquals(pair);
    if at == |pair| || Trim(pair[..at], IsTrimmed) == "" then None
    else
      Some(Meaning(Trim(pair[..at], IsTrimmed), StripQuotes(Trim(pair[at + 1..], IsTrimmed)),
        Settings(ReadAll(pieces[1..])), numbers))
  }

  method ParseSetCookie(header: string, numbers: Numbers) returns (r: Option<Cookie>)
    ensures r == Parsed(header, numbers)
  {
    var pieces := Split(header, IsSemicolon);
    var pair, attributes := pieces[0], pieces[1..];
    var separator := IndexOfEquals(pair);
    if separator == 0 || separator == |pair| {
      return None;
    }
    var name := Trim(pair[..separator], IsTrimmed);
    if name == "" {
      return None;
    }
    var cookie := Plain(name, StripQuotes(Trim(pair[separator + 1..], IsTrimmed)));
    ghost var all := Settings(ReadAll(attributes));
    for i := 0 to |attributes|
      invariant cookie == Meaning(name, StripQuotes(Trim(pair[separator + 1..], IsTrimmed)), all[..i], numbers)
    {
      assert Init(all[..i + 1]) == all[..i];
      var parts := Split(attributes[i], IsEquals);
      var key := KeyOf(Trim(parts[0], IsTrimmed));
      var value := Trim(Join(parts[1..], '='), IsTrimmed);
      match key {
        case Path => cookie := cookie.(path := Some(value));
        case MaxAge =>
          var seconds := numbers.parseInt(value);
          if seconds.Some? {
            cookie := cookie.(maxAge := seconds);
          }
        case Expires =>
          var date := numbers.date(value);
          if date.Some? {
            cookie := cookie.(expires := date);
          }
        case Secure => cookie := cookie.(secure := true);
        case HttpOnly => cookie := cookie.(httpOnly := true);
        case Site =>
          var sameSite := SameSiteOf(value);
          if sameSite.Some? {
            cookie := cookie.(sameSite := sameSite);
          }
        case Unknown =>
      }
    }
    assert all[..|attributes|] == all;
    return Some(cookie);
  }

  // ---------------------------------------------------------------- printing, and reading back

  function AttributeText(a: Attribute): string
  {
    if a.value == "" then a.key else a.key + "=" + a.value
  }

  function Pieces(name: string, value: string, attributes: seq<Attribute>): (pieces: seq<string>)
    ensures |pieces| == 1 + |attributes|
  {
    [name + "=" + value] + seq(|attributes|, i requires 0 <= i < |attributes| => " " + AttributeText(attributes[i]))
  }

  function Header(name: string, value: string, attributes: seq<Attribute>): string
  {
    Join(Pieces(name, value, attributes), ';')
  }

  /** No semicolon, and nothing to trim. */
  ghost predicate Tidy(s: string)
  {
    Free(s, IsSemicolon) && Trimmed(s, IsTrimmed)
  }

  ghost predicate TidyKey(s: string)
  {
    Tidy(s) && Free(s, IsEquals)
  }

  ghost predicate AllTidy(attributes: seq<Attribute>)
  {
    forall i | 0 <= i < |attributes| :: TidyKey(attributes[i].key) && Tidy(attributes[i].value)
  }

  lemma TrimTidy(s: string)
    requires Trimmed(s, IsTrimmed)
    ensures Trim(s, IsTrimmed) == s && Trim(" " + s, IsTrimmed) == s
  {
  }

  lemma SplitKey(key: string, value: string)
    requires Free(key, IsEquals)
    ensures Split(key + "=" + value, IsEquals) == [key] + Split(value, IsEquals)
  {
    SplitFree(key, IsEquals);
    SplitAppend(key, "=" + value, IsEquals);
    assert ("=" + value)[1..] == value;
    assert key + "=" + value == key + ("=" + value);
    assert key + "" == key;
  }

  lemma BareBack(key: string)
    requires TidyKey(key)
    ensures ReadAttribute(" " + key) == Attribute(key, "")
  {
    TrimTidy(key);
    SplitFree(" " + key, IsEquals);
    assert [" " + key][1..] == [];
    assert Trim("", IsTrimmed) == "";
  }

  lemma ValuedBack(key: string, value: string)
    requires TidyKey(key) && Tidy(value)
    ensures ReadAttribute((" " + key) + "=" + value) == Attribute(key, value)
  {
    TrimTidy(key);
    TrimTidy(value);
    SplitKey(" " + key, value);
    JoinSplit(value, '=', IsEquals);
    assert ([" " + key] + Split(value, IsEquals))[1..] == Split(value, IsEquals);
  }

  lemma AttributeBack(a: Attribute)
    requires TidyKey(a.key) && Tidy(a.value)
    ensures ReadAttribute(" " + AttributeText(a)) == a
  {
    if a.value == "" {
      BareBack(a.key);
    } else {
      ValuedBack(a.key, a.value);
      assert " " + (a.key + "=" + a.value) == (" " + a.key) + "=" + a.value;
    }
  }

  lemma PieceFree(a: Attribute)
    requires TidyKey(a.key) && Tidy(a.value)
    ensures Free(" " + AttributeText(a), IsSemicolon)
  {
  }

  lemma PiecesFree(name: string, value: string, attributes: seq<Attribute>)
    requires TidyKey(name) && Tidy(value) && AllTidy(attributes)
    ensures forall i | 0 <= i < |Pieces(name, value, attributes)|
      :: Free(Pieces(name, value, attributes)[i], IsSemicolon)
  {
    var pieces := Pieces(name, value, attributes);
    forall i | 0 <= i < |pieces|
      ensures Free(pieces[i], IsSemicolon)
    {
      if i == 0 {
        assert pieces[0] == name + "=" + value;
      } else {
        PieceFree(attributes[i - 1]);
      }
    }
  }

  lemma AttributesBack(name: string, value: string, attributes: seq<Attribute>)
    requires AllTidy(attributes)
    ensures ReadAll(Pieces(name, value, attributes)[1..]) == attributes
  {
    forall i | 0 <= i < |attributes|
      ensures ReadAttribute(Pieces(name, value, attributes)[1..][i]) == attributes[i]
    {
      AttributeBack(attributes[i]);
    }
  }

  lemma PiecesBack(name: string, value: string, attributes: seq<Attribute>)
    requires TidyKey(name) && Tidy(value) && AllTidy(attributes)
    ensures Split(Header(name, value, attributes), IsSemicolon) == Pieces(name, value, attributes)
    ensures ReadAll(Pieces(name, value, attributes)[1..]) == attributes
  {
    PiecesFree(name, value, attributes);
    SplitJoin(Pieces(name, value, attributes), ';', IsSemicolon);
    AttributesBack(name, value, attributes);
  }

  lemma {:induction false} EqualsAt(name: string, value: string)
    requires Free(name, IsEquals)
    ensures IndexOfEquals(name + "=" + value) == |name|
  {
    if name != "" {
      EqualsAt(name[1..], value);
      assert (name + "=" + value)[1..] == name[1..] + "=" + value;
    }
  }

  lemma PairBack(name: string, value: string)
    requires TidyKey(name) && Tidy(value)
    ensures var pair := name + "=" + value;
      && IndexOfEquals(pair) == |name| < |pair|
      && Trim(pair[..|name|], IsTrimmed) == name
      && Trim(pair[|name| + 1..], IsTrimmed) == value
  {
    var pair := name + "=" + value;
    EqualsAt(name, value);
    assert pair[..|name|] == name && pair[|name| + 1..] == value;
    TrimTidy(name);
    TrimTidy(value);
  }

  /** A printed cookie is read back, whatever its attributes, their order, their spelling and their number. */
  lemma RoundTrip(name: string, value: string, attributes: seq<Attribute>, numbers: Numbers)
    requires name != "" && TidyKey(name) && Tidy(value) && AllTidy(attributes)
    ensures Parsed(Header(name, value, attributes), numbers)
         == Some(Meaning(name, StripQuotes(value), Settings(attributes), numbers))
  {
    PiecesBack(name, value, attributes);
    PairBack(name, value);
  }

  // ---------------------------------------------------------------- attributes as they are spelled

  /** What the last attribute of that spelling, in any case, that is understood says. */
  function LastSpelled<T>(attributes: seq<Attribute>, spelling: string, read: string -> Option<T>): Option<T>
  {
    if attributes == [] then None
    else if Lower(Last(attributes).key) == spelling && read(Last(attributes).value).Some?
    then read(Last(attributes).value)
    else LastSpelled(Init(attributes), spelling, read)
  }

  ghost predicate Present(attributes: seq<Attribute>, spelling: string)
  {
    exists i :: 0 <= i < |attributes| && Lower(attributes[i].key) == spelling
  }

  /** One key, one spelling. */
  ghost predicate SpelledAs(key: Key, spelling: string)
  {
    forall text: string :: KeyOf(text) == key <==> Lower(text) == spelling
  }

  lemma SettingsInit(attributes: seq<Attribute>)
    requires attributes != []
    ensures Settings(attributes) == Settings(Init(attributes)) + [SettingOf(Last(attributes))]
  {
  }

  lemma OnlyNext(before: seq<Setting>, last: Setting, key: Key)
    ensures Only(before + [last], key) == if last.key == key then Only(before, key) + [last] else Only(before, key)
  {
    assert Init(before + [last]) == before;
  }

  lemma {:induction false} SpelledFound<T>(attributes: seq<Attribute>, key: Key, spelling: string,
      read: string -> Option<T>)
    requires SpelledAs(key, spelling)
    ensures LastFound(Only(Settings(attributes), key), read) == LastSpelled(attributes, spelling, read)
  {
    if attributes != [] {
      var before, last := Init(attributes), Last(attributes);
      SpelledFound(before, key, spelling, read);
      SettingsInit(attributes);
      OnlyNext(Settings(before), SettingOf(last), key);
      assert KeyOf(last.key) == key <==> Lower(last.key) == spelling;
      FoundNext(Only(Settings(before), key), SettingOf(last), read);
    }
  }

  lemma {:induction false} SpelledPresent(attributes: seq<Attribute>, key: Key, spelling: string)
    requires SpelledAs(key, spelling)
    ensures Only(Settings(attributes), key) != [] <==> Present(attributes, spelling)
  {
    if attributes != [] {
      var before, last := Init(attributes), Last(attributes);
      SpelledPresent(before, key, spelling);
      SettingsInit(attributes);
      OnlyNext(Settings(before), SettingOf(last), key);
      assert KeyOf(last.key) == key <==> Lower(last.key) == spelling;
      PresentNext(attributes, spelling);
    }
  }

  lemma PresentNext(attributes: seq<Attribute>, spelling: string)
    requires attributes != []
    ensures Present(attributes, spelling) <==>
      Present(Init(attributes), spelling) || Lower(Last(attributes).key) == spelling
  {
    if Present(Init(attributes), spelling) {
      var i :| 0 <= i < |Init(attributes)| && Lower(Init(attributes)[i].key) == spelling;
      assert Lower(attributes[i].key) == spelling;
    }
    if Present(attributes, spelling) {
      var i :| 0 <= i < |attributes| && Lower(attributes[i].key) == spelling;
      assert i < |attributes| - 1 ==> Init(attributes)[i] == attributes[i];
    }
    if Lower(Last(attributes).key) == spelling {
      assert Lower(attributes[|attributes| - 1].key) == spelling;
    }
  }

  lemma PathSpelled()
    ensures SpelledAs(Path, "path")
  {
  }

  lemma MaxAgeSpelled()
    ensures SpelledAs(MaxAge, "max-age")
  {
  }

  lemma ExpiresSpelled()
    ensures SpelledAs(Expires, "expires")
  {
  }

  lemma SecureSpelled()
    ensures SpelledAs(Secure, "secure")
  {
  }

  lemma HttpOnlySpelled()
    ensures SpelledAs(HttpOnly, "httponly")
  {
  }

  lemma SiteSpelled()
    ensures SpelledAs(Site, "samesite")
  {
  }

  lemma FoundBySpelling(attributes: seq<Attribute>, numbers: Numbers)
    ensures LastFound(Only(Settings(attributes), Path), Whole) == LastSpelled(attributes, "path", Whole)
    ensures LastFound(Only(Settings(attributes), MaxAge), numbers.parseInt)
         == LastSpelled(attributes, "max-age", numbers.parseInt)
    ensures LastFound(Only(Settings(attributes), Expires), numbers.date)
         == LastSpelled(attributes, "expires", numbers.date)
    ensures LastFound(Only(Settings(attributes), Site), SameSiteOf) == LastSpelled(attributes, "samesite", SameSiteOf)
  {
    PathSpelled();
    SpelledFound(attributes, Path, "path", Whole);
    MaxAgeSpelled();
    SpelledFound(attributes, MaxAge, "max-age", numbers.parseInt);
    ExpiresSpelled();
    SpelledFound(attributes, Expires, "expires", numbers.date);
    SiteSpelled();
    SpelledFound(attributes, Site, "samesite", SameSiteOf);
  }

  lemma FlagsBySpelling(attributes: seq<Attribute>)
    ensures Only(Settings(attributes), Secure) != [] <==> Present(attributes, "secure")
    ensures Only(Settings(attributes), HttpOnly) != [] <==> Present(attributes, "httponly")
  {
    SecureSpelled();
    SpelledPresent(attributes, Secure, "secure");
    HttpOnlySpelled();
    SpelledPresent(attributes, HttpOnly, "httponly");
  }

  /** Each field, by the spelling of the attribute that sets it. */
  ghost function Spelled(name: string, value: string, attributes: seq<Attribute>, numbers: Numbers): Cookie
  {
    Cookie(name, value,
           LastSpelled(attributes, "path", Whole),
           LastSpelled(attributes, "max-age", numbers.parseInt),
           LastSpelled(attributes, "expires", numbers.date),
           Present(attributes, "secure"),
           Present(attributes, "httponly"),
           LastSpelled(attributes, "samesite", SameSiteOf))
  }

  lemma MeaningSpelled(name: string, value: string, attributes: seq<Attribute>, numbers: Numbers)
    ensures Meaning(name, value, Settings(attributes), numbers) == Spelled(name, value, attributes, numbers)
  {
    MeaningIs(name, value, Settings(attributes), numbers);
    FoundBySpelling(attributes, numbers);
    FlagsBySpelling(attributes);
  }

  /** A printed cookie is read back, each field as the attribute so spelled says, its value without quotes around it. */
  lemma ReadBack(name: string, value: string, attributes: seq<Attribute>, numbers: Numbers, bare: string)
    requires name != "" && TidyKey(name) && Tidy(value) && AllTidy(attributes)
    requires if |value| >= 2 && value[0] == '"' && value[|value| - 1] == '"' then value == "\"" + bare + "\""
      else value == bare
    ensures Parsed(Header(name, value, attributes), numbers) == Some(Spelled(name, bare, attributes, numbers))
  {
    assert StripQuotes(value) == bare;
    MeaningSpelled(name, bare, attributes, numbers);
    RoundTrip(name, value, attributes, numbers);
  }

  lemma SameSiteIff(value: string)
    ensures SameSiteOf(value) == Some(Strict) <==> Lower(value) == "strict"
    ensures SameSiteOf(value) == Some(Lax) <==> Lower(value) == "lax"
    ensures SameSiteOf(value) == Some(NoneSent) <==> Lower(value) == "none"
  {
  }

  /** The value itself comes back exactly when it does not stand in quotes. */
  lemma ValueBackIff(name: string, value: string, attributes: seq<Attribute>, numbers: Numbers)
    requires name != "" && TidyKey(name) && Tidy(value) && AllTidy(attributes)
    ensures var r := Parsed(Header(name, value, attributes), numbers);
      r.Some? && r.value.name == name && (r.value.value == value <==> !Quoted(value))
  {
    RoundTrip(name, value, attributes, numbers);
    MeaningIs(name, StripQuotes(value), Settings(attributes), numbers);
  }

  // ---------------------------------------------------------------- the order of attributes

  /** The settings of one key, in order. */
  function Only(settings: seq<Setting>, key: Key): seq<Setting>
  {
    if settings == [] then []
    else if Last(settings).key == key then Only(Init(settings), key) + [Last(settings)]
    else Only(Init(settings), key)
  }

  /** The last value that is understood, if any is. */
  function LastFound<T>(settings: seq<Setting>, read: string -> Option<T>): Option<T>
  {
    if settings == [] then None
    else if read(Last(settings).value).Some? then read(Last(settings).value)
    else LastFound(Init(settings), read)
  }

  function Whole(value: string): Option<string>
  {
    Some(value)
  }

  lemma FoundNext<T>(own: seq<Setting>, a: Setting, read: string -> Option<T>)
    ensures LastFound(own + [a], read) == Or(read(a.value), LastFound(own, read))
  {
  }

  /** Each field is what the last setting of its own key that is understood says; no other setting bears on it. */
  lemma {:induction false} MeaningIs(name: string, value: string, settings: seq<Setting>, numbers: Numbers)
    ensures Meaning(name, value, settings, numbers) == Cookie(
      name, value,
      LastFound(Only(settings, Path), Whole),
      LastFound(Only(settings, MaxAge), numbers.parseInt),
      LastFound(Only(settings, Expires), numbers.date),
      Only(settings, Secure) != [],
      Only(settings, HttpOnly) != [],
      LastFound(Only(settings, Site), SameSiteOf))
  {
    if settings != [] {
      var last, before := Last(settings), Init(settings);
      MeaningIs(name, value, before, numbers);
      match last.key {
        case Path => FoundNext(Only(before, Path), last, Whole);
        case MaxAge => FoundNext(Only(before, MaxAge), last, numbers.parseInt);
        case Expires => FoundNext(Only(before, Expires), last, numbers.date);
        case Site => FoundNext(Only(before, Site), last, SameSiteOf);
        case _ =>
      }
    }
  }

  /** Settings may be reordered across keys, and unknown ones added or dropped, without changing the cookie. */
  lemma OrderAcrossKeys(name: string, value: string, a: seq<Setting>, b: seq<Setting>, numbers: Numbers)
    requires forall key | key != Unknown :: Only(a, key) == Only(b, key)
    ensures Meaning(name, value, a, numbers) == Meaning(name, value, b, numbers)
  {
    MeaningIs(name, value, a, numbers);
    MeaningIs(name, value, b, numbers);
  }

  lemma {:induction false} OnlyWithout(a: seq<Setting>, x: Setting, b: seq<Setting>, key: Key)
    requires x.key != key
    ensures Only(a + [x] + b, key) == Only(a + b, key)
  {
    if b == [] {
      assert a + [x] + b == a + [x] && a + b == a && Init(a + [x]) == a;
    } else {
      OnlyWithout(a, x, Init(b), key);
      assert Init(a + [x] + b) == a + [x] + Init(b) && Init(a + b) == a + Init(b);
    }
  }

  lemma SettingsAround(a: seq<Attribute>, x: Attribute, b: seq<Attribute>)
    ensures Settings(a + [x] + b) == Settings(a) + [SettingOf(x)] + Settings(b)
    ensures Settings(a + b) == Settings(a) + Settings(b)
  {
  }

  /** An attribute that is not known is as if it were not there. */
  lemma UnknownIsIgnored(name: string, value: string, a: seq<Attribute>, x: Attribute, b: seq<Attribute>,
      numbers: Numbers)
    requires KeyOf(x.key) == Unknown
    ensures Meaning(name, value, Settings(a + [x] + b), numbers) == Meaning(name, value, Settings(a + b), numbers)
  {
    var s := SettingOf(x);
    SettingsAround(a, x, b);
    forall key: Key | key != Unknown
      ensures Only(Settings(a) + [s] + Settings(b), key) == Only(Settings(a) + Settings(b), key)
    {
      OnlyWithout(Settings(a), s, Settings(b), key);
    }
    OrderAcrossKeys(name, value, Settings(a) + [s] + Settings(b), Settings(a) + Settings(b), numbers);
  }

  /** A header with a Domain, spelled in any case and anywhere in it, is read as the header without. */
  lemma DomainIsIgnored(name: string, value: string, a: seq<Attribute>, x: Attribute, b: seq<Attribute>,
      numbers: Numbers)
    requires name != "" && TidyKey(name) && Tidy(value) && AllTidy(a + [x] + b) && Lower(x.key) == "domain"
    ensures Parsed(Header(name, value, a + [x] + b), numbers) == Parsed(Header(name, value, a + b), numbers)
  {
    TidyWithout(a, x, b);
    RoundTrip(name, value, a + [x] + b, numbers);
    RoundTrip(name, value, a + b, numbers);
    DomainIsUnknown(x.key);
    UnknownIsIgnored(name, StripQuotes(value), a, x, b, numbers);
  }

  lemma DomainIsUnknown(spelled: string)
    requires Lower(spelled) == "domain"
    ensures KeyOf(spelled) == Unknown
  {
  }

  lemma TidyWithout(a: seq<Attribute>, x: Attribute, b: seq<Attribute>)
    requires AllTidy(a + [x] + b)
    ensures AllTidy(a + b)
  {
    forall i | 0 <= i < |a + b|
      ensures TidyKey((a + b)[i].key) && Tidy((a + b)[i].value)
    {
      assert (a + b)[i] == (a + [x] + b)[if i < |a| then i else i + 1];
    }
  }
}
