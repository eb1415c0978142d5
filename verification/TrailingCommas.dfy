/** The in-place remover of trailing commas, and the whole extraction (huya/extractor.rs). */
module TrailingCommas {
  import opened ByteStrings
  import opened JsonBlocks

  predicate Closer(c: char)
  {
    c == '}' || c == ']'
  }

  function Quotes(s: string): nat
  {
    if s == [] then 0 else (if s[0] == '"' then 1 else 0) + Quotes(s[1..])
  }

  predicate Even(n: nat)
  {
    n % 2 == 0
  }

  /** From `k` on there are only commas up to a closing brace or bracket. */
  predicate CloserAfterCommas(s: string, k: nat)
    decreases |s| - k
  {
    k < |s| && (Closer(s[k]) || (s[k] == ',' && CloserAfterCommas(s, k + 1)))
  }

  /** The characters to go: the commas of a run directly before a closer, after an even number of quotes. */
  predicate Trailing(s: string, k: nat)
    requires k < |s|
  {
    s[k] == ',' && Even(Quotes(s[..k])) && CloserAfterCommas(s, k + 1)
  }

  /** The reference: everything from `k` on except the trailing commas. */
  function Kept(s: string, k: nat): string
    requires k <= |s|
    decreases |s| - k
  {
    if k == |s| then [] else (if Trailing(s, k) then [] else [s[k]]) + Kept(s, k + 1)
  }

  function Cleaned(s: string): string
  {
    Kept(s, 0)
  }

  lemma {:induction false} QuotesOfTwoParts(a: string, b: string)
    ensures Quotes(a + b) == Quotes(a) + Quotes(b)
  {
    if a == [] {
      assert a + b == b;
    } else {
      assert (a + b)[1..] == a[1..] + b;
      QuotesOfTwoParts(a[1..], b);
    }
  }

  lemma QuotesGrow(s: string, k: nat)
    requires k < |s|
    ensures Quotes(s[..k + 1]) == Quotes(s[..k]) + if s[k] == '"' then 1 else 0
  {
    assert s[..k + 1] == s[..k] + [s[k]] && [s[k]][1..] == [];
    QuotesOfTwoParts(s[..k], [s[k]]);
  }

  /** The first kept character tells whether a run of commas ends in a closer. */
  lemma {:induction false} FirstKept(s: string, k: nat)
    requires k <= |s|
    ensures Kept(s, k) != [] && Closer(Kept(s, k)[0]) ==> CloserAfterCommas(s, k)
    ensures CloserAfterCommas(s, k) && Even(Quotes(s[..k])) ==> Kept(s, k) != [] && Closer(Kept(s, k)[0])
    decreases |s| - k
  {
    if k < |s| {
      QuotesGrow(s, k);
      FirstKept(s, k + 1);
    }
  }

  lemma {:induction false} SomethingIsKept(s: string, k: nat)
    requires k < |s|
    ensures Kept(s, k) != []
    decreases |s| - k
  {
    if k + 1 < |s| {
      SomethingIsKept(s, k + 1);
    }
  }

  /** The test the loop makes on the buffer is the test the reference makes on the original text. */
  lemma CommaStep(s: string, i: nat)
    requires 1 <= i < |s|
    ensures Kept(s, i) != []
    ensures Kept(s, i - 1) == (if Closer(Kept(s, i)[0]) && s[i - 1] == ',' && Even(Quotes(s[..i - 1]))
      then [] else [s[i - 1]]) + Kept(s, i)
  {
    SomethingIsKept(s, i);
    FirstKept(s, i);
    QuotesGrow(s, i - 1);
  }

  /** Main result: scanning from the right and deleting in place leaves exactly the reference. */
  method RemoveTrailingCommas(s: string) returns (bytes: string)
    ensures bytes == Cleaned(s)
  {
    bytes := s;
    var i := |bytes|;
    if i > 0 {
      assert Kept(s, i - 1) == [s[i - 1]];
    }
    hide Kept, Quotes;
    while i >= 2
      invariant |s| == 0 ==> i == 0 && bytes == []
      invariant |s| > 0 ==> 1 <= i <= |s| && bytes == s[..i - 1] + Kept(s, i - 1)
    {
      i := i - 1;
      CommaStep(s, i);
      assert bytes == s[..i] + Kept(s, i);
      assert bytes[i] == Kept(s, i)[0] && bytes[i - 1] == s[i - 1] && bytes[..i - 1] == s[..i - 1];
      if Closer(bytes[i]) && bytes[i - 1] == ',' {
        var quoteCount := Quotes(bytes[..i - 1]);
        if quoteCount % 2 == 0 {
          bytes := bytes[..i - 1] + bytes[i..];
        }
      }
    }
    NothingToClean(s);
  }

  lemma NothingToClean(s: string)
    ensures |s| == 0 ==> Cleaned(s) == []
    ensures Cleaned(s) == Kept(s, 0)
  {
  }

  /** No removable pair, for a text that `before` quotes precede. */
  ghost predicate NoPair(t: string, before: nat)
  {
    forall k | 0 <= k < |t| - 1 :: t[k] == ',' && Closer(t[k + 1]) ==> !Even(before + Quotes(t[..k]))
  }

  lemma {:induction false} KeptHasNoPair(s: string, k: nat)
    requires k <= |s|
    ensures NoPair(Kept(s, k), Quotes(s[..k]))
    decreases |s| - k
  {
    if k < |s| {
      KeptHasNoPair(s, k + 1);
      QuotesGrow(s, k);
      FirstKept(s, k + 1);
      if Trailing(s, k) {
        assert Kept(s, k) == Kept(s, k + 1);
      } else {
        PrependKeepsNoPair(s[k], Kept(s, k + 1), Quotes(s[..k]));
        assert Kept(s, k) == [s[k]] + Kept(s, k + 1);
      }
    }
  }

  lemma PrependKeepsNoPair(c: char, t: string, before: nat)
    requires NoPair(t, before + if c == '"' then 1 else 0)
    requires c == ',' && t != [] && Closer(t[0]) ==> !Even(before)
    ensures NoPair([c] + t, before)
  {
    var r := [c] + t;
    forall k | 0 <= k < |r| - 1 && r[k] == ',' && Closer(r[k + 1]) ensures !Even(before + Quotes(r[..k])) {
      if k > 0 {
        assert r[..k][0] == c && r[..k][1..] == t[..k - 1];
        assert t[k - 1] == ',' && Closer(t[k]);
      }
    }
  }

  /** Main result: no comma directly before a closer is left at an even number of quotes. */
  lemma NoTrailingCommaIsLeft(s: string)
    ensures NoPair(Cleaned(s), 0)
  {
    KeptHasNoPair(s, 0);
    assert s[..0] == [];
  }

  /** Such a run of commas ends in a removable pair. */
  lemma {:induction false} RunEndsInPair(s: string, k: nat)
    requires k < |s| && Trailing(s, k)
    ensures !NoPair(s, 0)
    decreases |s| - k
  {
    if Closer(s[k + 1]) {
      assert s[k] == ',' && Closer(s[k + 1]);
    } else {
      QuotesGrow(s, k);
      RunEndsInPair(s, k + 1);
    }
  }

  lemma {:induction false} NothingTrailing(s: string, k: nat)
    requires k <= |s| && NoPair(s, 0)
    ensures Kept(s, k) == s[k..]
    decreases |s| - k
  {
    if k < |s| {
      if Trailing(s, k) {
        RunEndsInPair(s, k);
      }
      NothingTrailing(s, k + 1);
    }
  }

  /** A text is left alone exactly when it has no removable pair. */
  lemma UnchangedExactlyWithoutPairs(s: string)
    ensures Cleaned(s) == s <==> NoPair(s, 0)
  {
    NoTrailingCommaIsLeft(s);
    if NoPair(s, 0) {
      NothingTrailing(s, 0);
    }
  }

  /** Main result: cleaning twice is cleaning once. */
  lemma CleaningIsIdempotent(s: string)
    ensures Cleaned(Cleaned(s)) == Cleaned(s)
  {
    NoTrailingCommaIsLeft(s);
    UnchangedExactlyWithoutPairs(Cleaned(s));
  }

  function WithoutCommas(s: string): string
  {
    if s == [] then [] else (if s[0] == ',' then [] else [s[0]]) + WithoutCommas(s[1..])
  }

  lemma {:induction false} KeptWithoutCommas(s: string, k: nat)
    requires k <= |s|
    ensures WithoutCommas(Kept(s, k)) == WithoutCommas(s[k..])
    decreases |s| - k
  {
    if k < |s| {
      KeptWithoutCommas(s, k + 1);
      assert s[k..][1..] == s[k + 1..];
      if Trailing(s, k) {
        assert Kept(s, k) == Kept(s, k + 1);
      } else {
        assert Kept(s, k)[1..] == Kept(s, k + 1);
      }
    }
  }

  /** Nothing but commas is lost, and the rest keeps its order. */
  lemma OnlyCommasAreRemoved(s: string)
    ensures WithoutCommas(Cleaned(s)) == WithoutCommas(s)
  {
    KeptWithoutCommas(s, 0);
    assert s[0..] == s;
  }

  // How good the quote count is as a test for being outside string literals.

  /** Quotes that a backslash inside a literal protects. */
  function EscapedQuotes(mode: Mode, s: string): nat
    decreases s
  {
    if s == [] then 0
    else (if mode == Escaped && s[0] == '"' then 1 else 0) + EscapedQuotes(NextMode(mode, s[0]), s[1..])
  }

  lemma {:induction false} ParityFollowsMode(mode: Mode, s: string)
    ensures (mode == Outside <==> ModeAfter(mode, s) == Outside) <==> Even(Quotes(s) + EscapedQuotes(mode, s))
    decreases s
  {
    if s != [] {
      ParityFollowsMode(NextMode(mode, s[0]), s[1..]);
    }
  }

  // The same, without the predicate for closers and for all lengths of the run.

  function Commas(n: nat): (s: string)
    ensures |s| == n && forall i | 0 <= i < n :: s[i] == ','
  {
    seq(n, _ => ',')
  }

  predicate EndsInComma(s: string)
  {
    s != [] && s[|s| - 1] == ','
  }

  lemma {:induction false} RunStaysInside(a: string, b: string, k: nat)
    requires k <= |a| && !EndsInComma(a)
    ensures k < |a| ==> (CloserAfterCommas(a + b, k) <==> CloserAfterCommas(a, k))
    decreases |a| - k
  {
    if k < |a| {
      RunStaysInside(a, b, k + 1);
    }
  }

  /** What stands behind a character that is no comma has no influence on what stands before it. */
  lemma {:induction false} KeptSplits(a: string, b: string, k: nat)
    requires k <= |a| && !EndsInComma(a)
    ensures Kept(a + b, k) == Kept(a, k) + Kept(a + b, |a|)
    decreases |a| - k
  {
    if k == |a| {
      assert [] + Kept(a + b, |a|) == Kept(a + b, |a|);
    } else {
      KeptSplits(a, b, k + 1);
      RunStaysInside(a, b, k + 1);
      assert (a + b)[..k] == a[..k] && (a + b)[k] == a[k];
      hide Quotes;
      Regroup(if Trailing(a, k) then [] else [a[k]], Kept(a, k + 1), Kept(a + b, |a|));
    }
  }

  lemma {:induction false} NoQuotesInCommas(p: string, n: nat)
    ensures Quotes(p + Commas(n)) == Quotes(p)
    decreases n
  {
    if n == 0 {
      assert p + Commas(0) == p;
    } else {
      NoQuotesInCommas(p, n - 1);
      assert p + Commas(n) == (p + Commas(n - 1)) + [','] && [','][1..] == [];
      QuotesOfTwoParts(p + Commas(n - 1), [',']);
    }
  }

  lemma {:induction false} RunAtEnd(p: string, n: nat, c: char, i: nat)
    requires i <= n && c != ','
    ensures CloserAfterCommas(p + Commas(n) + [c], |p| + i) <==> c == '}' || c == ']'
    decreases n - i
  {
    if i < n {
      RunAtEnd(p, n, c, i + 1);
    }
  }

  lemma {:induction false} KeptOfRun(p: string, n: nat, c: char, i: nat)
    requires i <= n && c != ','
    ensures Kept(p + Commas(n) + [c], |p| + i)
      == if (c == '}' || c == ']') && Even(Quotes(p)) then [c] else Commas(n - i) + [c]
    decreases n - i
  {
    var s := p + Commas(n) + [c];
    if i == n {
      assert Kept(s, |p| + n) == [c] + Kept(s, |s|) == [c];
      assert Commas(0) + [c] == [c];
    } else {
      KeptOfRun(p, n, c, i + 1);
      RunDecision(p, n, c, i);
      hide Quotes, Kept, Trailing;
      MoreCommas(n - i - 1, c);
    }
  }

  lemma RunDecision(p: string, n: nat, c: char, i: nat)
    requires i < n && c != ','
    ensures var s := p + Commas(n) + [c];
      Kept(s, |p| + i)
      == (if (c == '}' || c == ']') && Even(Quotes(p)) then [] else [',']) + Kept(s, |p| + i + 1)
  {
    var s := p + Commas(n) + [c];
    RunAtEnd(p, n, c, i + 1);
    assert s[..|p| + i] == p + Commas(i) && s[|p| + i] == ',';
    NoQuotesInCommas(p, i);
    hide Quotes, CloserAfterCommas;
  }

  lemma MoreCommas(n: nat, c: char)
    ensures [','] + (Commas(n) + [c]) == Commas(n + 1) + [c]
  {
  }

  /**
   * Main result: a run of commas goes exactly in front of `}` and `]`, after an even number of quotes; in front of
   * any other character it stays.
   */
  lemma CommasGoBeforeClosers(p: string, n: nat, c: char)
    requires !EndsInComma(p) && c != ','
    ensures Cleaned(p + Commas(n) + [c])
      == Cleaned(p) + if (c == '}' || c == ']') && Quotes(p) % 2 == 0 then [c] else Commas(n) + [c]
  {
    hide Kept, Quotes;
    assert p + Commas(n) + [c] == p + (Commas(n) + [c]);
    KeptSplits(p, Commas(n) + [c], 0);
    KeptOfRun(p, n, c, 0);
  }

  /** The quote count is right about a position exactly when an even number of escaped quotes precede it. */
  lemma QuoteCountIsRightIff(s: string, k: nat)
    requires k <= |s|
    ensures (Even(Quotes(s[..k])) <==> ModeAfter(Outside, s[..k]) == Outside)
      <==> Even(EscapedQuotes(Outside, s[..k]))
  {
    ParityFollowsMode(Outside, s[..k]);
  }

  /** A comma of a run directly before a closer: the quote count decides about it. */
  predicate Candidate(s: string, k: nat)
    requires k < |s|
  {
    s[k] == ',' && CloserAfterCommas(s, k + 1)
  }

  /** What ought to be left from `k` on: everything except such commas outside string literals. */
  function Proper(s: string, k: nat): string
    requires k <= |s|
    decreases |s| - k
  {
    if k == |s| then []
    else (if Candidate(s, k) && ModeAfter(Outside, s[..k]) == Outside then [] else [s[k]]) + Proper(s, k + 1)
  }

  lemma ModeGrows(s: string, k: nat)
    requires k < |s|
    ensures ModeAfter(Outside, s[..k + 1]) == NextMode(ModeAfter(Outside, s[..k]), s[k])
  {
    assert s[..k + 1] == s[..k] + [s[k]];
    OneMoreCharacter(Outside, s[..k], s[k]);
  }

  lemma {:induction false} FirstProper(s: string, k: nat)
    requires k <= |s| && CloserAfterCommas(s, k) && ModeAfter(Outside, s[..k]) == Outside
    ensures Proper(s, k) != [] && Closer(Proper(s, k)[0])
    decreases |s| - k
  {
    ModeGrows(s, k);
    if !Closer(s[k]) {
      FirstProper(s, k + 1);
    }
  }

  /** The quote count is right about every run of commas from `k` on. */
  ghost predicate RightFrom(s: string, k: nat)
  {
    forall j | k <= j < |s| && Candidate(s, j) :: Even(EscapedQuotes(Outside, s[..j]))
  }

  /** A wrong decision shows: one text begins with the comma, the other with the closer. */
  lemma WrongDecisionShows(s: string, k: nat)
    requires k < |s| && Candidate(s, k) && !Even(EscapedQuotes(Outside, s[..k]))
    ensures Kept(s, k) != Proper(s, k)
  {
    QuoteCountIsRightIff(s, k);
    QuotesGrow(s, k);
    ModeGrows(s, k);
    hide Kept, Proper, Quotes, ModeAfter, EscapedQuotes;
    KeptStep(s, k);
    ProperStep(s, k);
    if Even(Quotes(s[..k])) {
      FirstKept(s, k + 1);
    } else {
      FirstProper(s, k + 1);
    }
  }

  lemma KeptStep(s: string, k: nat)
    requires k < |s|
    ensures Kept(s, k) == if Candidate(s, k) && Even(Quotes(s[..k])) then Kept(s, k + 1) else [s[k]] + Kept(s, k + 1)
  {
  }

  lemma ProperStep(s: string, k: nat)
    requires k < |s|
    ensures Proper(s, k) == if Candidate(s, k) && ModeAfter(Outside, s[..k]) == Outside then Proper(s, k + 1)
      else [s[k]] + Proper(s, k + 1)
  {
  }

  lemma {:induction false} KeptIsProperFrom(s: string, k: nat)
    requires k <= |s|
    ensures Kept(s, k) == Proper(s, k) <==> RightFrom(s, k)
    decreases |s| - k
  {
    if k < |s| {
      KeptIsProperFrom(s, k + 1);
      if Candidate(s, k) && !Even(EscapedQuotes(Outside, s[..k])) {
        WrongDecisionShows(s, k);
      } else {
        QuoteCountIsRightIff(s, k);
        hide Kept, Proper, Quotes, ModeAfter, EscapedQuotes;
        KeptStep(s, k);
        ProperStep(s, k);
        SameHead(s[k], Kept(s, k + 1), Proper(s, k + 1));
        assert RightFrom(s, k) <==> RightFrom(s, k + 1);
      }
    }
  }

  lemma SameHead(c: char, a: string, b: string)
    ensures [c] + a == [c] + b <==> a == b
  {
    assert ([c] + a)[1..] == a && ([c] + b)[1..] == b;
  }

  /**
   * Main result: exactly the commas outside string literals are removed if and only if an even number of escaped
   * quotes precede every comma of a run before a closer.
   */
  lemma CleanedIsProperIff(s: string)
    ensures Cleaned(s) == Proper(s, 0)
      <==> forall k | 0 <= k < |s| && s[k] == ',' && CloserAfterCommas(s, k + 1) :: Even(EscapedQuotes(Outside, s[..k]))
  {
    KeptIsProperFrom(s, 0);
    assert forall k | 0 <= k < |s| :: Candidate(s, k) <==> s[k] == ',' && CloserAfterCommas(s, k + 1);
  }

  /** A text with one escaped quote, an object holding one literal, and its comma at index 4. */
  const ESCAPED_QUOTE := "{\"\\\",]\"}"

  lemma EscapedQuoteText()
    ensures ESCAPED_QUOTE == Render(Nested([Literal("\\\",]")]))
    ensures WellFormed(Nested([Literal("\\\",]")])) && |ESCAPED_QUOTE| == 8
  {
    var body := "\\\",]";
    var items := [Literal(body)];
    assert body[2..] == ",]" && ",]"[1..] == "]" && "]"[1..] == "";
    assert IsLiteralBody("]") && IsLiteralBody(",]") && IsLiteralBody(body);
    assert items[1..] == [] && RenderAll(items) == Render(Literal(body)) + [];
  }

  lemma QuotesBeforeComma()
    ensures ModeAfter(Outside, ESCAPED_QUOTE[..4]) == Inside && Quotes(ESCAPED_QUOTE[..4]) == 2
  {
    var s := ESCAPED_QUOTE;
    var a, b, c, d, e := s[..4], s[1..4], s[2..4], s[3..4], s[4..4];
    assert a[1..] == b && b[1..] == c && c[1..] == d && d[1..] == e && e == [];
    assert Quotes(d) == 1 + Quotes(e) && ModeAfter(Escaped, d) == ModeAfter(Inside, e);
    assert Quotes(c) == 0 + Quotes(d) && ModeAfter(Inside, c) == ModeAfter(Escaped, d);
    assert Quotes(b) == 1 + Quotes(c) && ModeAfter(Outside, b) == ModeAfter(Inside, c);
    assert Quotes(a) == 0 + Quotes(b) && ModeAfter(Outside, a) == ModeAfter(Outside, b);
  }

  /** On a block as the scanner cuts it out, one escaped quote makes the remover take a comma out of a literal. */
  lemma CommaInsideLiteralIsRemoved()
    ensures var s := ESCAPED_QUOTE;
      && IsBlock(s, |s|) && s[4] == ',' && ModeAfter(Outside, s[..4]) == Inside && Trailing(s, 4)
      && Cleaned(s) != Proper(s, 0)
  {
    var s := ESCAPED_QUOTE;
    EscapedQuoteText();
    NestedObjectIsBlock([Literal("\\\",]")], "");
    assert s + "" == s;
    QuotesBeforeComma();
    assert CloserAfterCommas(s, 5);
    QuoteCountIsRightIff(s, 4);
    CleanedIsProperIff(s);
  }

  /** A block opens at the first brace after the keyword's first occurrence. */
  ghost predicate BlockAfter(html: string, keyword: string, start: nat, offset: nat, end: nat)
  {
    && FirstAt(html, keyword, start)
    && FirstAt(html[start + |keyword|..], "{", offset)
    && IsBlock(html[start + |keyword|..][offset..], end)
  }

  /** The text handed to the JSON parser: that block without trailing commas. */
  method ExtractJsonText(html: string, keyword: string) returns (json: Option<string>)
    ensures json.Some? ==> exists start: nat, offset: nat, end: nat ::
      (BlockAfter(html, keyword, start, offset, end)
      && json.value == Cleaned(html[start + |keyword|..][offset..][..end]))
    ensures json == None ==> forall start: nat, offset: nat, end: nat :: !BlockAfter(html, keyword, start, offset, end)
  {
    hide Depth, Cleaned;
    var start := Find(html, keyword);
    if start == None {
      return None;
    }
    var after := html[start.value + |keyword|..];
    var offset := Find(after, "{");
    if offset == None {
      forall i: nat, o: nat, e: nat ensures !BlockAfter(html, keyword, i, o, e) {
        FirstIsUnique(html, keyword, i, start.value);
      }
      return None;
    }
    var rest := after[offset.value..];
    assert rest[..1] == "{";
    assert rest[0] == rest[..1][0];
    var end := FindBlockEnd(rest);
    if end == None {
      forall i: nat, o: nat, e: nat ensures !BlockAfter(html, keyword, i, o, e) {
        FirstIsUnique(html, keyword, i, start.value);
        FirstIsUnique(after, "{", o, offset.value);
      }
      return None;
    }
    var text := RemoveTrailingCommas(rest[..end.value]);
    assert BlockAfter(html, keyword, start.value, offset.value, end.value);
    json := Some(text);
  }

  lemma FirstIsUnique(s: string, piece: string, a: nat, b: nat)
    ensures FirstAt(s, piece, a) && FirstAt(s, piece, b) ==> a == b
  {
  }
}
