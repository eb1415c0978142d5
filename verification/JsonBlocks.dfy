/** Cutting one JSON object out of a page: the brace scanner (huya/extractor.rs). */
module JsonBlocks {
  import opened ByteStrings

  // The reference: take the string literals out of the text and count braces in the rest.

  /** What follows the string literal whose opening quote is just before `s`. */
  function AfterLiteral(s: string): (rest: string)
    ensures |rest| <= |s|
  {
    if s == [] then []
    else if s[0] == '\\' then (if |s| == 1 then [] else AfterLiteral(s[2..]))
    else if s[0] == '"' then s[1..]
    else AfterLiteral(s[1..])
  }

  /** The characters outside string literals; an unfinished literal runs to the end. */
  function Code(s: string): string
    decreases |s|
  {
    if s == [] then []
    else if s[0] == '"' then Code(AfterLiteral(s[1..]))
    else [s[0]] + Code(s[1..])
  }

  /** Opening minus closing braces. */
  function Balance(code: string): int
  {
    if code == [] then 0
    else (if code[0] == '{' then 1 else if code[0] == '}' then -1 else 0) + Balance(code[1..])
  }

  function Depth(s: string): int
  {
    Balance(Code(s))
  }

  /** The first `end` characters are the shortest non-empty prefix whose braces balance. */
  ghost predicate IsBlock(s: string, end: nat)
  {
    && 1 <= end <= |s|
    && Depth(s[..end]) == 0
    && forall k | 1 <= k < end :: Depth(s[..k]) != 0
  }

  // The scanner's own view: one pass with a mode.

  datatype Mode = Outside | Inside | Escaped

  function NextMode(mode: Mode, c: char): Mode
  {
    match mode
    case Escaped => Inside
    case Inside => if c == '\\' then Escaped else if c == '"' then Outside else Inside
    case Outside => if c == '"' then Inside else Outside
  }

  function ModeAfter(mode: Mode, s: string): Mode
    decreases s
  {
    if s == [] then mode else ModeAfter(NextMode(mode, s[0]), s[1..])
  }

  function Seen(mode: Mode, c: char): string
  {
    if mode == Outside && c != '"' then [c] else []
  }

  function SeenIn(mode: Mode, s: string): string
    decreases s
  {
    if s == [] then [] else Seen(mode, s[0]) + SeenIn(NextMode(mode, s[0]), s[1..])
  }

  /** The characters outside literals when the text is entered in the given mode. */
  function CodeFrom(mode: Mode, s: string): string
  {
    match mode
    case Outside => Code(s)
    case Inside => Code(AfterLiteral(s))
    case Escaped => if s == [] then [] else Code(AfterLiteral(s[1..]))
  }

  lemma CodeStep(mode: Mode, s: string)
    requires s != []
    ensures CodeFrom(mode, s) == Seen(mode, s[0]) + CodeFrom(NextMode(mode, s[0]), s[1..])
  {
    if mode == Inside && s[0] == '\\' && |s| >= 2 {
      assert s[1..][1..] == s[2..];
    }
  }

  /** The one-pass view sees exactly the characters outside literals. */
  lemma {:induction false} ScannerSeesCode(mode: Mode, s: string)
    ensures SeenIn(mode, s) == CodeFrom(mode, s)
    decreases s
  {
    if s != [] {
      CodeStep(mode, s);
      hide CodeFrom, Seen, NextMode;
      ScannerSeesCode(NextMode(mode, s[0]), s[1..]);
    }
  }

  lemma {:induction false} OneMoreCharacter(mode: Mode, s: string, c: char)
    ensures SeenIn(mode, s + [c]) == SeenIn(mode, s) + Seen(ModeAfter(mode, s), c)
    ensures ModeAfter(mode, s + [c]) == NextMode(ModeAfter(mode, s), c)
    decreases s
  {
    var t := s + [c];
    if s == [] {
      assert t[0] == c && t[1..] == [];
    } else {
      hide Seen;
      var next := NextMode(mode, s[0]);
      assert t[0] == s[0] && t[1..] == s[1..] + [c];
      OneMoreCharacter(next, s[1..], c);
      Regroup(Seen(mode, s[0]), SeenIn(next, s[1..]), Seen(ModeAfter(next, s[1..]), c));
    }
  }

  lemma {:induction false} BalanceOfTwoParts(a: string, b: string)
    ensures Balance(a + b) == Balance(a) + Balance(b)
  {
    if a == [] {
      assert a + b == b;
    } else {
      assert (a + b)[1..] == a[1..] + b;
      BalanceOfTwoParts(a[1..], b);
    }
  }

  /** How one more character changes mode and depth. */
  lemma ScanStep(s: string, i: nat)
    requires i < |s|
    ensures ModeAfter(Outside, s[..i + 1]) == NextMode(ModeAfter(Outside, s[..i]), s[i])
    ensures Depth(s[..i + 1]) == Depth(s[..i]) + Balance(Seen(ModeAfter(Outside, s[..i]), s[i]))
  {
    hide Code, Balance, SeenIn, Seen, NextMode;
    assert s[..i + 1] == s[..i] + [s[i]];
    OneMoreCharacter(Outside, s[..i], s[i]);
    ScannerSeesCode(Outside, s[..i]);
    ScannerSeesCode(Outside, s[..i + 1]);
    BalanceOfTwoParts(Code(s[..i]), Seen(ModeAfter(Outside, s[..i]), s[i]));
  }

  function SaturatingDecrement(n: nat): nat
  {
    if n == 0 then 0 else n - 1
  }

  /** Main result: the scanner finds the shortest balanced prefix, and gives up exactly when there is none. */
  method FindBlockEnd(rest: string) returns (end: Option<nat>)
    requires rest != [] && rest[0] == '{'
    ensures end.Some? ==> IsBlock(rest, end.value)
    ensures end == None ==> forall k | 1 <= k <= |rest| :: Depth(rest[..k]) != 0
  {
    hide Depth, ModeAfter;
    var depth: nat := 0;
    var inString, escapeNext := false, false;
    var found := 0;
    var i := 0;
    EmptyPrefix(rest);
    while i < |rest|
      invariant 0 <= i <= |rest| && found == 0
      invariant depth == Depth(rest[..i]) && (i > 0 ==> depth > 0)
      invariant forall k | 1 <= k <= i :: Depth(rest[..k]) != 0
      invariant ModeAfter(Outside, rest[..i])
        == if escapeNext then Escaped else if inString then Inside else Outside
      invariant escapeNext ==> inString
    {
      var c := rest[i];
      ScanStep(rest, i);
      i := i + 1;
      if escapeNext {
        escapeNext := false;
        continue;
      }
      if c == '\\' && inString {
        escapeNext := true;
        continue;
      }
      if c == '"' {
        inString := !inString;
        continue;
      }
      if inString {
        continue;
      }
      if c == '{' {
        depth := depth + 1;
      } else if c == '}' {
        depth := SaturatingDecrement(depth);
        if depth == 0 {
          found := i;
          break;
        }
      }
    }
    end := if found == 0 || found > |rest| then None else Some(found);
  }

  lemma EmptyPrefix(s: string)
    ensures Depth(s[..0]) == 0 && ModeAfter(Outside, s[..0]) == Outside
  {
  }

  // What the scanner is for: nested braces, string literals and escapes, whatever the literals hold.

  datatype Item = Plain(c: char) | Literal(body: string) | Nested(items: seq<Item>)

  /** No unescaped quote, and no backslash left over at the end. */
  predicate IsLiteralBody(s: string)
  {
    s == [] || (s[0] != '"' && (if s[0] == '\\' then |s| >= 2 && IsLiteralBody(s[2..]) else IsLiteralBody(s[1..])))
  }

  predicate WellFormed(item: Item)
  {
    match item
    case Plain(c) => c != '{' && c != '}' && c != '"'
    case Literal(body) => IsLiteralBody(body)
    case Nested(items) => forall i | 0 <= i < |items| :: WellFormed(items[i])
  }

  function Render(item: Item): string
  {
    match item
    case Plain(c) => [c]
    case Literal(body) => "\"" + (body + "\"")
    case Nested(items) => "{" + (RenderAll(items) + "}")
  }

  function RenderAll(items: seq<Item>): string
  {
    if items == [] then [] else Render(items[0]) + RenderAll(items[1..])
  }

  /** Text that leaves the scanner as it found it and never dips below its starting depth. */
  ghost predicate Neutral(s: string)
  {
    && ModeAfter(Outside, s) == Outside && Depth(s) == 0
    && forall k | 0 <= k <= |s| :: Depth(s[..k]) >= 0
  }

  lemma {:induction false} ScanOfTwoParts(mode: Mode, a: string, b: string)
    ensures SeenIn(mode, a + b) == SeenIn(mode, a) + SeenIn(ModeAfter(mode, a), b)
    ensures ModeAfter(mode, a + b) == ModeAfter(ModeAfter(mode, a), b)
    decreases a
  {
    if a == [] {
      assert a + b == b;
    } else {
      hide Seen, NextMode;
      var next := NextMode(mode, a[0]);
      assert (a + b)[0] == a[0] && (a + b)[1..] == a[1..] + b;
      ScanOfTwoParts(next, a[1..], b);
      Regroup(Seen(mode, a[0]), SeenIn(next, a[1..]), SeenIn(ModeAfter(next, a[1..]), b));
    }
  }

  lemma DepthOfTwoParts(a: string, b: string)
    requires ModeAfter(Outside, a) == Outside
    ensures Depth(a + b) == Depth(a) + Depth(b)
    ensures ModeAfter(Outside, a + b) == ModeAfter(Outside, b)
  {
    hide Code, Balance, SeenIn, ModeAfter;
    ScanOfTwoParts(Outside, a, b);
    ScannerSeesCode(Outside, a);
    ScannerSeesCode(Outside, b);
    ScannerSeesCode(Outside, a + b);
    BalanceOfTwoParts(Code(a), Code(b));
  }

  lemma NeutralParts(a: string, b: string)
    requires Neutral(a) && Neutral(b)
    ensures Neutral(a + b)
  {
    hide Depth, ModeAfter;
    DepthOfTwoParts(a, b);
    forall k | 0 <= k <= |a + b| ensures Depth((a + b)[..k]) >= 0 {
      if k <= |a| {
        assert (a + b)[..k] == a[..k];
      } else {
        assert (a + b)[..k] == a + b[..k - |a|];
        DepthOfTwoParts(a, b[..k - |a|]);
      }
    }
  }

  lemma {:induction false} LiteralIsSkipped(body: string)
    requires IsLiteralBody(body)
    ensures ModeAfter(Inside, body + "\"") == Outside
    ensures AfterLiteral(body + "\"") == []
    ensures forall k | 0 <= k <= |body| :: AfterLiteral(body[..k]) == []
    decreases |body|
  {
    var s := body + "\"";
    if body == [] {
      assert s[0] == '"' && s[1..] == [];
    } else {
      var skip := if body[0] == '\\' then 2 else 1;
      LiteralIsSkipped(body[skip..]);
      assert s[0] == body[0] && s[skip..] == body[skip..] + "\"";
      if skip == 2 {
        assert s[1..][1..] == s[2..];
      }
      forall k | 0 <= k <= |body| ensures AfterLiteral(body[..k]) == [] {
        if k >= skip {
          assert body[..k][skip..] == body[skip..][..k - skip];
        }
      }
    }
  }

  lemma NeutralLiteral(body: string)
    requires IsLiteralBody(body)
    ensures Neutral("\"" + (body + "\""))
  {
    var s := "\"" + (body + "\"");
    LiteralIsSkipped(body);
    assert s[1..] == body + "\"";
    forall k | 0 <= k <= |s| ensures Depth(s[..k]) == 0 {
      if 0 < k < |s| {
        assert s[..k][0] == '"' && s[..k][1..] == body[..k - 1];
        assert Code(s[..k]) == Code([]);
      } else if k == |s| {
        assert s[..k] == s && Code(s) == Code([]);
      }
    }
    assert s[..|s|] == s;
  }

  lemma OneBrace()
    ensures Depth("{") == 1 && Depth("}") == -1
    ensures ModeAfter(Outside, "{") == Outside && ModeAfter(Outside, "}") == Outside
  {
    assert "{"[1..] == "" && "}"[1..] == "";
  }

  /** Braces around neutral text: balanced at the end and nowhere before. */
  lemma BracesAround(inner: string, k: nat)
    requires Neutral(inner) && k <= |inner| + 2
    ensures var s := "{" + (inner + "}");
      |s| == |inner| + 2 && ModeAfter(Outside, s) == Outside && Depth(s[..k]) >= 0
      && (Depth(s[..k]) == 0 <==> k == 0 || k == |s|)
  {
    hide Depth, ModeAfter;
    var s := "{" + (inner + "}");
    OneBrace();
    DepthOfTwoParts("{", inner + "}");
    DepthOfTwoParts(inner, "}");
    if k == 0 {
      EmptyPrefix(s);
    } else if k < |s| {
      assert s[..k] == "{" + inner[..k - 1];
      DepthOfTwoParts("{", inner[..k - 1]);
    } else {
      assert s[..k] == s;
    }
  }

  lemma NeutralBraces(inner: string)
    requires Neutral(inner)
    ensures Neutral("{" + (inner + "}"))
  {
    var s := "{" + (inner + "}");
    forall k | 0 <= k <= |s| ensures Depth(s[..k]) >= 0 {
      BracesAround(inner, k);
    }
    BracesAround(inner, |s|);
    assert s[..|s|] == s;
  }

  lemma {:induction false} ItemIsNeutral(item: Item)
    requires WellFormed(item)
    ensures Neutral(Render(item))
    decreases item
  {
    match item
    case Plain(c) =>
      assert [c][1..] == "" && [c][..0] == "" && [c][..1] == [c];
      assert Code([c]) == [c] + Code("") && Balance([c]) == 0;
    case Literal(body) =>
      NeutralLiteral(body);
    case Nested(items) =>
      ItemsAreNeutral(items);
      NeutralBraces(RenderAll(items));
  }

  lemma {:induction false} ItemsAreNeutral(items: seq<Item>)
    requires forall i | 0 <= i < |items| :: WellFormed(items[i])
    ensures Neutral(RenderAll(items))
    decreases items
  {
    if items != [] {
      ItemIsNeutral(items[0]);
      ItemsAreNeutral(items[1..]);
      hide Neutral;
      NeutralParts(Render(items[0]), RenderAll(items[1..]));
    }
  }

  /** Main result: an object, however nested and whatever its literals hold, is cut out whole before any tail. */
  lemma NestedObjectIsBlock(items: seq<Item>, tail: string)
    requires WellFormed(Nested(items))
    ensures IsBlock(Render(Nested(items)) + tail, |Render(Nested(items))|)
  {
    var s := Render(Nested(items));
    ItemsAreNeutral(items);
    hide Depth, ModeAfter;
    forall k | 0 <= k <= |s| ensures (s + tail)[..k] == s[..k] && (Depth(s[..k]) == 0 <==> k == 0 || k == |s|) {
      BracesAround(RenderAll(items), k);
    }
  }

  /** There is at most one block, so the scanner's answer is determined. */
  lemma BlockIsUnique(s: string, a: nat, b: nat)
    requires IsBlock(s, a) && IsBlock(s, b)
    ensures a == b
  {
  }

  /** Looking for the first occurrence of a piece of text. */
  ghost predicate OccursAt(s: string, piece: string, i: nat)
  {
    i + |piece| <= |s| && s[i..i + |piece|] == piece
  }

  ghost predicate FirstAt(s: string, piece: string, i: nat)
  {
    OccursAt(s, piece, i) && forall k | 0 <= k < i :: !OccursAt(s, piece, k)
  }

  method Find(s: string, piece: string) returns (at: Option<nat>)
    ensures at.Some? ==> FirstAt(s, piece, at.value)
    ensures at == None ==> forall i: nat :: !OccursAt(s, piece, i)
  {
    var i := 0;
    while i + |piece| <= |s|
      invariant forall j | 0 <= j < i :: !OccursAt(s, piece, j)
    {
      if s[i..i + |piece|] == piece {
        return Some(i);
      }
      i := i + 1;
    }
    at := None;
  }
}
