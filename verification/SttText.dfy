/** The STT text codec: escaping and key-value maps (stt.rs). */
module SttText {
  import opened ByteStrings

  function EscapeChar(c: char): string
  {
    if c == '@' then "@A" else if c == '/' then "@S" else [c]
  }

  function Escape(s: string): string
  {
    if s == [] then []
    else EscapeChar(s[0]) + Escape(s[1..])
  }

  /** `str::replace` of the two-character pattern `ab`, scanning from the left. */
  function Replace(s: string, a: char, b: char, sub: char): string
  {
    if s == [] then []
    else if |s| >= 2 && s[0] == a && s[1] == b then [sub] + Replace(s[2..], a, b, sub)
    else [s[0]] + Replace(s[1..], a, b, sub)
  }

  function Unescape(s: string): string
  {
    Replace(Replace(s, '@', 'S', '/'), '@', 'A', '@')
  }

  /** The reference: one scan that undoes both escapes at once. */
  function UnescapeOnce(s: string): string
  {
    if s == [] then []
    else if |s| >= 2 && s[0] == '@' && s[1] == 'S' then "/" + UnescapeOnce(s[2..])
    else if |s| >= 2 && s[0] == '@' && s[1] == 'A' then "@" + UnescapeOnce(s[2..])
    else [s[0]] + UnescapeOnce(s[1..])
  }

  /** Escaping one character less: what is left after the first replacement. */
  function HalfEscape(s: string): string
  {
    if s == [] then [] else (if s[0] == '@' then "@A" else [s[0]]) + HalfEscape(s[1..])
  }

  lemma {:induction false} FirstPass(s: string)
    ensures Replace(Escape(s), '@', 'S', '/') == HalfEscape(s)
  {
    if s != [] {
      FirstPassStep(s[0], Escape(s[1..]));
      hide Replace, EscapeChar;
      FirstPass(s[1..]);
    }
  }

  lemma FirstPassStep(c: char, rest: string)
    ensures Replace(EscapeChar(c) + rest, '@', 'S', '/')
      == (if c == '@' then "@A" else [c]) + Replace(rest, '@', 'S', '/')
  {
    var s := EscapeChar(c) + rest;
    if c == '@' {
      assert s[2..] == rest;
      FirstPassKeepsA(s);
    } else if c == '/' {
      assert s[2..] == rest;
    } else {
      assert s[1..] == rest;
    }
  }

  lemma {:induction false} SecondPass(s: string)
    ensures Replace(HalfEscape(s), '@', 'A', '@') == s
  {
    if s != [] {
      SecondPass(s[1..]);
      var e := HalfEscape(s[1..]);
      if s[0] == '@' {
        assert HalfEscape(s)[2..] == e;
      } else {
        assert HalfEscape(s)[1..] == e;
      }
    }
  }

  /** Main result: the two successive replacements undo the escaping of every string. */
  lemma UnescapeInverts(s: string)
    ensures Unescape(Escape(s)) == s
  {
    FirstPass(s);
    SecondPass(s);
  }

  lemma ReplaceHead(s: string, a: char, b: char, sub: char)
    requires s != [] && !(|s| >= 2 && s[0] == a && s[1] == b)
    ensures Replace(s, a, b, sub) == [s[0]] + Replace(s[1..], a, b, sub)
  {
  }

  /** The first pass neither makes nor breaks an `@A`. */
  lemma FirstPassHead(s: string)
    ensures var r := Replace(s, '@', 'S', '/');
      (r == [] <==> s == []) && (s != [] && s[0] == 'A' <==> r != [] && r[0] == 'A')
  {
  }

  lemma FirstPassKeepsA(s: string)
    requires |s| >= 2 && s[0] == '@' && s[1] == 'A'
    ensures Replace(s, '@', 'S', '/') == "@A" + Replace(s[2..], '@', 'S', '/')
  {
    ReplaceHead(s, '@', 'S', '/');
    var t := s[1..];
    assert t[0] == 'A' && t[1..] == s[2..];
    ReplaceHead(t, '@', 'S', '/');
    Regroup("@", "A", Replace(s[2..], '@', 'S', '/'));
    assert "@" + "A" == "@A";
  }

  /** On every string, escaped or not, the two replacements in this order are one scan. */
  lemma {:induction false} TwoPassesAreOne(s: string)
    ensures Unescape(s) == UnescapeOnce(s)
  {
    if s != [] {
      var r := Replace(s, '@', 'S', '/');
      if |s| >= 2 && s[0] == '@' && s[1] == 'S' {
        TwoPassesAreOne(s[2..]);
        assert r[1..] == Replace(s[2..], '@', 'S', '/');
      } else if |s| >= 2 && s[0] == '@' && s[1] == 'A' {
        TwoPassesAreOne(s[2..]);
        FirstPassKeepsA(s);
        assert r[2..] == Replace(s[2..], '@', 'S', '/');
      } else {
        TwoPassesAreOne(s[1..]);
        assert r[1..] == Replace(s[1..], '@', 'S', '/');
        FirstPassHead(s[1..]);
        ReplaceHead(r, '@', 'A', '@');
      }
    }
  }

  /** `split` at every slash. */
  function Split(s: string): (parts: seq<string>)
    ensures |parts| >= 1
  {
    if s == [] then [[]]
    else if s[0] == '/' then [[]] + Split(s[1..])
    else
      var rest := Split(s[1..]);
      [[s[0]] + rest[0]] + rest[1..]
  }

  /** `split_once("@=")` */
  function SplitOnce(s: string): Option<(string, string)>
  {
    if |s| < 2 then None
    else if s[0] == '@' && s[1] == '=' then Some(([], s[2..]))
    else
      match SplitOnce(s[1..])
      case None => None
      case Some((k, v)) => Some(([s[0]] + k, v))
  }

  datatype Item = Item(key: string, value: string)

  function EncodeItem(i: Item): string
  {
    Escape(i.key) + ("@=" + Escape(i.value))
  }

  /** The items in the order in which the map happens to iterate. */
  function Encode(items: seq<Item>): string
  {
    if items == [] then [] else EncodeItem(items[0]) + "/" + Encode(items[1..])
  }

  function DecodePart(part: string, acc: map<string, string>): map<string, string>
  {
    match SplitOnce(part)
    case None => acc
    case Some((k, v)) => acc[Unescape(k) := Unescape(v)]
  }

  function DecodeParts(parts: seq<string>, acc: map<string, string>): map<string, string>
    decreases parts
  {
    if parts == [] then acc
    else DecodeParts(parts[1..], if parts[0] == [] then acc else DecodePart(parts[0], acc))
  }

  function Decode(data: string): map<string, string>
  {
    DecodeParts(Split(data), map[])
  }

  predicate NoSlash(s: string)
  {
    '/' !in s
  }

  lemma {:induction false} EscapeHasNoSlash(s: string)
    ensures NoSlash(Escape(s))
  {
    if s != [] {
      EscapeHasNoSlash(s[1..]);
    }
  }

  lemma {:induction false} SplitAtSlash(part: string, rest: string)
    requires NoSlash(part)
    ensures Split(part + "/" + rest) == [part] + Split(rest)
  {
    var s := part + "/" + rest;
    if part == [] {
      assert s[1..] == rest;
    } else {
      assert s[1..] == part[1..] + "/" + rest;
      SplitAtSlash(part[1..], rest);
      assert [s[0]] + part[1..] == part;
    }
  }

  /** Nothing before the separator matters to `split_once` as long as no `@=` starts there. */
  lemma SplitOnceLater(c: char, rest: string)
    requires |rest| >= 1 && !(c == '@' && rest[0] == '=')
    ensures SplitOnce([c] + rest) ==
      match SplitOnce(rest)
      case None => None
      case Some((k, v)) => Some(([c] + k, v))
  {
    assert ([c] + rest)[1..] == rest;
  }

  lemma {:induction false} SplitOnceAtKey(key: string, value: string)
    ensures SplitOnce(Escape(key) + ("@=" + value)) == Some((Escape(key), value))
  {
    var t := "@=" + value;
    if key == [] {
      assert Escape(key) + t == t && t[2..] == value;
    } else {
      var e := Escape(key[1..]);
      SplitOnceAtKey(key[1..], value);
      Regroup(EscapeChar(key[0]), e, t);
      hide SplitOnce, Escape;
      if key[0] == '@' || key[0] == '/' {
        var c := if key[0] == '@' then 'A' else 'S';
        Regroup(['@'], [c], e + t);
        Regroup(['@'], [c], e);
        assert ['@'] + [c] == EscapeChar(key[0]);
        SplitOnceLater(c, e + t);
        SplitOnceLater('@', [c] + (e + t));
      } else {
        SplitOnceLater(key[0], e + t);
      }
    }
  }

  /** The map that the items build when they are inserted one after the other. */
  function Build(items: seq<Item>, acc: map<string, string>): map<string, string>
    decreases items
  {
    if items == [] then acc else Build(items[1..], acc[items[0].key := items[0].value])
  }

  lemma DecodeItem(i: Item, acc: map<string, string>)
    ensures NoSlash(EncodeItem(i)) && EncodeItem(i) != []
    ensures DecodePart(EncodeItem(i), acc) == acc[i.key := i.value]
  {
    EscapeHasNoSlash(i.key);
    EscapeHasNoSlash(i.value);
    SplitOnceAtKey(i.key, Escape(i.value));
    UnescapeInverts(i.key);
    UnescapeInverts(i.value);
  }

  lemma {:induction false} DecodeItems(items: seq<Item>, acc: map<string, string>)
    ensures DecodeParts(Split(Encode(items)), acc) == Build(items, acc)
    decreases items
  {
    if items == [] {
      var parts: seq<string> := [""];
      assert Split("") == parts && parts[1..] == [];
    } else {
      hide EncodeItem, Split, DecodePart;
      DecodeItem(items[0], acc);
      SplitAtSlash(EncodeItem(items[0]), Encode(items[1..]));
      var parts := Split(Encode(items));
      assert parts[1..] == Split(Encode(items[1..]));
      DecodeItems(items[1..], acc[items[0].key := items[0].value]);
    }
  }

  /** The items list every entry of the map once, in some order. */
  ghost predicate Enumerates(items: seq<Item>, m: map<string, string>)
  {
    && (forall i | 0 <= i < |items| :: items[i].key in m && m[items[i].key] == items[i].value)
    && (forall k | k in m :: exists i :: 0 <= i < |items| && items[i].key == k)
  }

  lemma {:induction false} BuildEnumeration(items: seq<Item>, m: map<string, string>, acc: map<string, string>)
    requires forall i | 0 <= i < |items| :: items[i].key in m && m[items[i].key] == items[i].value
    requires forall k | k in acc :: k in m && acc[k] == m[k]
    requires forall k | k in m :: k in acc || exists i :: 0 <= i < |items| && items[i].key == k
    ensures Build(items, acc) == m
    decreases items
  {
    if items != [] {
      var acc' := acc[items[0].key := items[0].value];
      forall k | k in m ensures k in acc' || exists i :: 0 <= i < |items[1..]| && items[1..][i].key == k {
        if k !in acc' {
          var i :| 0 <= i < |items| && items[i].key == k;
          assert items[1..][i - 1].key == k;
        }
      }
      BuildEnumeration(items[1..], m, acc');
    }
  }

  /** Main result: decoding an encoded map returns it, for every map and every iteration order. */
  lemma MapRoundTrip(items: seq<Item>, m: map<string, string>)
    requires Enumerates(items, m)
    ensures Decode(Encode(items)) == m
  {
    DecodeItems(items, map[]);
    BuildEnumeration(items, m, map[]);
  }

  /** The encoded heartbeat message, and a value with both special characters. */
  lemma KnownText()
    ensures Encode([Item("type", "mrkl")]) == "type@=mrkl/"
    ensures Escape("a/b@c") == "a@Sb@Ac"
  {
    OneItem(Item("type", "mrkl"));
    hide Encode, EncodeItem, Escape;
    KnownItem();
    SpecialCharacters();
  }

  lemma OneItem(i: Item)
    ensures Encode([i]) == EncodeItem(i) + "/"
  {
    assert [i][1..] == [];
    hide EncodeItem;
  }

  lemma KnownItem()
    ensures EncodeItem(Item("type", "mrkl")) == "type@=mrkl"
  {
    PlainText("type");
    PlainText("mrkl");
    hide Escape;
  }

  lemma SpecialCharacters()
    ensures Escape("a/b@c") == "a@Sb@Ac"
  {
    assert "a/b@c"[1..] == "/b@c" && "/b@c"[1..] == "b@c" && "b@c"[1..] == "@c" && "@c"[1..] == "c" && "c"[1..] == "";
    assert Escape("c") == "c" + Escape("");
    assert Escape("@c") == "@A" + Escape("c");
    assert Escape("b@c") == "b" + Escape("@c");
    assert Escape("/b@c") == "@S" + Escape("b@c");
    assert Escape("a/b@c") == "a" + Escape("/b@c");
  }

  lemma {:induction false} PlainText(s: string)
    requires '@' !in s && '/' !in s
    ensures Escape(s) == s
  {
    if s != [] {
      PlainText(s[1..]);
    }
  }

  /** In any text, a part is cut at its first `@=`, and a part without one is none. */
  lemma {:induction false} CutAtFirst(part: string)
    ensures SplitOnce(part) == None <==> forall i | 0 <= i < |part| - 1 :: !(part[i] == '@' && part[i + 1] == '=')
    ensures SplitOnce(part).Some? ==>
      var (k, v) := SplitOnce(part).value;
      && part == k + "@=" + v
      && forall i | 0 <= i < |k| :: !(part[i] == '@' && part[i + 1] == '=')
  {
    if |part| >= 2 && !(part[0] == '@' && part[1] == '=') {
      var rest := part[1..];
      CutAtFirst(rest);
      assert forall i | 0 < i < |part| - 1 :: part[i] == rest[i - 1] && part[i + 1] == rest[i];
    }
  }

  lemma EscapeStep(s: string, i: nat, done: string)
    requires i < |s|
    ensures done + Escape(s[i..]) == (done + EscapeChar(s[i])) + Escape(s[i + 1..])
  {
    assert s[i..][0] == s[i] && s[i..][1..] == s[i + 1..];
    Regroup(done, EscapeChar(s[i]), Escape(s[i + 1..]));
  }

  method SttEscape(s: string) returns (result: string)
    ensures result == Escape(s)
  {
    hide Escape;
    result := "";
    var i := 0;
    assert s[0..] == s && "" + Escape(s) == Escape(s);
    while i < |s|
      invariant 0 <= i <= |s| && result + Escape(s[i..]) == Escape(s)
    {
      var c := s[i];
      EscapeStep(s, i, result);
      if c == '@' {
        result := result + "@A";
      } else if c == '/' {
        result := result + "@S";
      } else {
        result := result + [c];
      }
      i := i + 1;
    }
    EscapeNothing(s[i..], result);
  }

  lemma EscapeNothing(rest: string, done: string)
    requires rest == []
    ensures done + Escape(rest) == done
  {
  }

  lemma EncodeStep(items: seq<Item>, i: nat, done: string)
    requires i < |items|
    ensures done + Encode(items[i..])
      == ((((done + Escape(items[i].key)) + "@=") + Escape(items[i].value)) + "/") + Encode(items[i + 1..])
  {
    assert items[i..][0] == items[i] && items[i..][1..] == items[i + 1..];
    var k, v, rest := Escape(items[i].key), Escape(items[i].value), Encode(items[i + 1..]);
    assert Encode(items[i..]) == (k + ("@=" + v)) + "/" + rest;
    hide *;
    Regroup(k, "@=", v);
    Regroup(done, k, "@=");
    Regroup(done, k + "@=", v);
    Regroup(done, k + "@=" + v, "/");
    Regroup(done, k + "@=" + v + "/", rest);
  }

  lemma EncodeNothing(items: seq<Item>, done: string)
    requires items == []
    ensures done + Encode(items) == done
  {
  }

  method SttEncode(items: seq<Item>) returns (result: string)
    ensures result == Encode(items)
    ensures forall m | Enumerates(items, m) :: Decode(result) == m
  {
    hide *;
    result := "";
    var i := 0;
    assert items[0..] == items && "" + Encode(items) == Encode(items);
    while i < |items|
      invariant 0 <= i <= |items| && result + Encode(items[i..]) == Encode(items)
    {
      EncodeStep(items, i, result);
      var key := SttEscape(items[i].key);
      result := result + key;
      result := result + "@=";
      var value := SttEscape(items[i].value);
      result := result + value;
      result := result + "/";
      i := i + 1;
    }
    EncodeNothing(items[i..], result);
    forall m | Enumerates(items, m) ensures Decode(result) == m {
      MapRoundTrip(items, m);
    }
  }

  method SttDecode(data: string) returns (m: map<string, string>)
    ensures m == Decode(data)
  {
    m := map[];
    var parts := Split(data);
    var i := 0;
    while i < |parts|
      invariant 0 <= i <= |parts| && DecodeParts(parts[i..], m) == Decode(data)
    {
      var part := parts[i];
      assert parts[i..][0] == part && parts[i..][1..] == parts[i + 1..];
      i := i + 1;
      if part == [] {
        continue;
      }
      var split := SplitOnce(part);
      if split.Some? {
        m := m[Unescape(split.value.0) := Unescape(split.value.1)];
      }
    }
  }
}
