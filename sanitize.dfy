/**
 * The escaping of free text for a single-quoted SQL string literal
 * (`sanitizeString` in query_funcs.cpp): every single quote is doubled and
 * every other character is copied unchanged.
 *
 * `Escape` is the specification, `SanitizeString` the character-by-character
 * loop of the source proved against it. `Unescape` (collapse every doubled
 * quote) and `ReadLiteral` (how standard SQL reads a literal's body) are its
 * partners.
 */
module Sanitize {
  import opened Wrappers

  const Quote: char := '\''

  /** Number of single quotes in `s`. */
  function QuoteCount(s: string): (n: nat)
    ensures n <= |s|
    decreases |s|
  {
    if s == [] then 0 else (if s[0] == Quote then 1 else 0) + QuoteCount(s[1..])
  }

  /** `s` with every single quote deleted. */
  function NonQuotes(s: string): (r: string)
    decreases |s|
  {
    if s == [] then [] else (if s[0] == Quote then [] else [s[0]]) + NonQuotes(s[1..])
  }

  /** What one input character becomes in the escaped text. */
  function EscapeChar(c: char): string
  {
    if c == Quote then [Quote, Quote] else [c]
  }

  /** The escaped text: one `EscapeChar` per input character, in order. */
  function Escape(s: string): (r: string)
    ensures |r| == |s| + QuoteCount(s)
    decreases |s|
  {
    if s == [] then [] else EscapeChar(s[0]) + Escape(s[1..])
  }

  lemma {:induction false} EscapeAppend(s: string, t: string)
    ensures Escape(s + t) == Escape(s) + Escape(t)
    decreases |s|
  {
    if s == [] {
      assert s + t == t;
    } else {
      assert (s + t)[1..] == s[1..] + t;
      EscapeAppend(s[1..], t);
    }
  }

  /** The loop of the source: copy each character, pushing one extra quote before a quote. */
  method SanitizeString(orig: string) returns (after: string)
    ensures after == Escape(orig)
  {
    after := [];
    for i := 0 to |orig|
      invariant after == Escape(orig[..i])
    {
      var c := orig[i];
      if c == Quote {
        after := after + [Quote];
      }
      after := after + [c];
      assert Escape([c]) == EscapeChar(c);
      EscapeAppend(orig[..i], [c]);
      assert orig[..i + 1] == orig[..i] + [c];
    }
    assert orig[..|orig|] == orig;
  }

  /**
   * Character `i` of the input lands at position `i + QuoteCount(s[..i])` of
   * the output, unchanged; a quote is followed there by exactly one more quote.
   */
  lemma EscapeAt(s: string, i: nat)
    requires i < |s|
    ensures i + QuoteCount(s[..i]) + (if s[i] == Quote then 1 else 0) < |Escape(s)|
    ensures Escape(s)[i + QuoteCount(s[..i])] == s[i]
    ensures s[i] == Quote ==> Escape(s)[i + QuoteCount(s[..i]) + 1] == Quote
  {
    var before, rest := s[..i], s[i + 1..];
    assert s == before + ([s[i]] + rest);
    EscapeAppend(before, [s[i]] + rest);
    EscapeAppend([s[i]], rest);
    assert Escape([s[i]]) == EscapeChar(s[i]);
    QuoteCountAppend(before, [s[i]] + rest);
    QuoteCountAppend([s[i]], rest);
  }

  lemma {:induction false} QuoteCountAppend(s: string, t: string)
    ensures QuoteCount(s + t) == QuoteCount(s) + QuoteCount(t)
    decreases |s|
  {
    if s == [] {
      assert s + t == t;
    } else {
      assert (s + t)[1..] == s[1..] + t;
      QuoteCountAppend(s[1..], t);
    }
  }

  /**
   * Only quotes change: the output holds exactly twice as many quotes as the
   * input, and its other characters are the input's, in the same order.
   */
  lemma {:induction false} EscapeOnlyDoublesQuotes(s: string)
    ensures QuoteCount(Escape(s)) == 2 * QuoteCount(s)
    ensures NonQuotes(Escape(s)) == NonQuotes(s)
    decreases |s|
  {
    if s != [] {
      EscapeOnlyDoublesQuotes(s[1..]);
      var e := EscapeChar(s[0]);
      var r := Escape(s[1..]);
      QuoteCountAppend(e, r);
      NonQuotesAppend(e, r);
      if s[0] == Quote {
        assert e[1..][1..] == [];
      } else {
        assert e[1..] == [];
      }
    }
  }

  lemma {:induction false} NonQuotesAppend(s: string, t: string)
    ensures NonQuotes(s + t) == NonQuotes(s) + NonQuotes(t)
    decreases |s|
  {
    if s == [] {
      assert s + t == t;
    } else {
      assert (s + t)[1..] == s[1..] + t;
      NonQuotesAppend(s[1..], t);
    }
  }

  /** A text without quotes, the empty text included, is returned unchanged. */
  lemma {:induction false} EscapeWithoutQuotes(s: string)
    requires QuoteCount(s) == 0
    ensures Escape(s) == s
    decreases |s|
  {
    if s != [] {
      EscapeWithoutQuotes(s[1..]);
    }
  }

  /**
   * Collapses every doubled quote back to one quote. A quote that is not
   * followed by a second one cannot come from `Escape`, and gives None.
   */
  function Unescape(t: string): (r: Option<string>)
    decreases |t|
  {
    if t == [] then Some([])
    else if t[0] != Quote then
      match Unescape(t[1..])
      case None => None
      case Some(u) => Some([t[0]] + u)
    else if |t| >= 2 && t[1] == Quote then
      match Unescape(t[2..])
      case None => None
      case Some(u) => Some([Quote] + u)
    else None
  }

  /** Collapsing the doubled quotes of `Escape(s)` gives back `s`. */
  lemma {:induction false} UnescapeEscape(s: string)
    ensures Unescape(Escape(s)) == Some(s)
    decreases |s|
  {
    if s != [] {
      UnescapeEscape(s[1..]);
      var t := Escape(s);
      assert t == EscapeChar(s[0]) + Escape(s[1..]);
      if s[0] == Quote {
        assert t[2..] == Escape(s[1..]);
      } else {
        assert t[1..] == Escape(s[1..]);
      }
      assert s == [s[0]] + s[1..];
    }
  }

  /** Conversely, every text that unescapes to `s` is `Escape(s)`: escaping is one-to-one. */
  lemma {:induction false} EscapeUnescape(t: string, s: string)
    requires Unescape(t) == Some(s)
    ensures Escape(s) == t
    decreases |t|
  {
    if t != [] {
      if t[0] != Quote {
        var u := Unescape(t[1..]).value;
        EscapeUnescape(t[1..], u);
        assert s == [t[0]] + u && s[1..] == u;
        assert t == [t[0]] + t[1..];
      } else {
        var u := Unescape(t[2..]).value;
        EscapeUnescape(t[2..], u);
        assert s == [Quote] + u && s[1..] == u;
        assert t == [Quote, Quote] + t[2..];
      }
    }
  }

  /** Length of the run of consecutive quotes that starts at position `i` of `t`. */
  function QuoteRun(t: string, i: nat): (n: nat)
    requires i <= |t|
    ensures i + n <= |t|
    ensures forall k :: i <= k < i + n ==> t[k] == Quote
    ensures i + n < |t| ==> t[i + n] != Quote
    decreases |t| - i
  {
    if i < |t| && t[i] == Quote then 1 + QuoteRun(t, i + 1) else 0
  }

  lemma {:induction false} QuoteRunShift(t: string, i: nat, k: nat)
    requires k <= i <= |t|
    ensures QuoteRun(t, i) == QuoteRun(t[k..], i - k)
    decreases |t| - i
  {
    if i < |t| && t[i] == Quote {
      QuoteRunShift(t, i + 1, k);
    }
  }

  /** In a text that unescapes, every maximal run of quotes has even length. */
  lemma {:induction false} UnescapableRunsEven(t: string, i: nat)
    requires Unescape(t).Some?
    requires i <= |t| && (i == 0 || t[i - 1] != Quote)
    ensures QuoteRun(t, i) % 2 == 0
    decreases |t|, 1
  {
    if t == [] {
    } else if t[0] != Quote {
      RunsEvenAfterPlain(t, i);
    } else {
      RunsEvenAfterPair(t, i);
    }
  }

  lemma {:induction false} RunsEvenAfterPlain(t: string, i: nat)
    requires t != [] && t[0] != Quote && Unescape(t).Some?
    requires i <= |t| && (i == 0 || t[i - 1] != Quote)
    ensures QuoteRun(t, i) % 2 == 0
    decreases |t|, 0
  {
    if i > 0 {
      UnescapableRunsEven(t[1..], i - 1);
      QuoteRunShift(t, i, 1);
    }
  }

  lemma {:induction false} RunsEvenAfterPair(t: string, i: nat)
    requires t != [] && t[0] == Quote && Unescape(t).Some?
    requires i <= |t| && (i == 0 || t[i - 1] != Quote)
    ensures QuoteRun(t, i) % 2 == 0
    decreases |t|, 0
  {
    if i == 0 {
      UnescapableRunsEven(t[2..], 0);
      QuoteRunShift(t, 2, 2);
      var m := QuoteRun(t, 2);
      assert m % 2 == 0;
      assert QuoteRun(t, 1) == 1 + m;
      assert QuoteRun(t, 0) == 2 + m;
      assert (2 + m) % 2 == 0;
    } else {
      UnescapableRunsEven(t[2..], i - 2);
      QuoteRunShift(t, i, 2);
    }
  }

  /**
   * Every maximal run of quotes in the escaped text has even length, so no
   * quote in it stands alone.
   */
  lemma EscapeRunsEven(s: string, i: nat)
    requires i <= |Escape(s)| && (i == 0 || Escape(s)[i - 1] != Quote)
    ensures QuoteRun(Escape(s), i) % 2 == 0
  {
    UnescapeEscape(s);
    UnescapableRunsEven(Escape(s), i);
  }

  /**
   * How standard SQL reads the body of a string literal whose opening quote
   * is already consumed: two quotes stand for one quote, a single quote
   * closes the literal, and a backslash is an ordinary character. The result
   * is the literal's value and the text after the closing quote, or None when
   * the text ends before the literal is closed.
   */
  function ReadLiteral(t: string): (r: Option<(string, string)>)
    ensures r.Some? ==> |r.value.1| < |t|
    decreases |t|
  {
    if t == [] then None
    else if t[0] != Quote then
      match ReadLiteral(t[1..])
      case None => None
      case Some((v, rest)) => Some(([t[0]] + v, rest))
    else if |t| >= 2 && t[1] == Quote then
      match ReadLiteral(t[2..])
      case None => None
      case Some((v, rest)) => Some(([Quote] + v, rest))
    else Some(([], t[1..]))
  }

  /**
   * A literal written as `'` + Escape(s) + `'` reads back as exactly `s`, and
   * it ends at the closing quote whenever the next character is not a quote.
   */
  lemma {:induction false} ReadLiteralEscape(s: string, rest: string)
    requires rest == [] || rest[0] != Quote
    ensures ReadLiteral(Escape(s) + [Quote] + rest) == Some((s, rest))
    decreases |s|
  {
    if s == [] {
      var t := Escape(s) + [Quote] + rest;
      assert t == [Quote] + rest;
      assert t[1..] == rest;
    } else {
      ReadLiteralEscape(s[1..], rest);
      var tail := Escape(s[1..]) + [Quote] + rest;
      ReadLiteralCons(s[0], tail, s[1..], rest);
      assert s == [s[0]] + s[1..];
      EscapeConsLiteral(s[0], s[1..], rest, tail);
    }
  }

  /** One escaped character in front of a literal's body adds that character to its value. */
  lemma ReadLiteralCons(c: char, tail: string, v: string, rest: string)
    requires ReadLiteral(tail) == Some((v, rest))
    ensures ReadLiteral(EscapeChar(c) + tail) == Some(([c] + v, rest))
  {
    var t := EscapeChar(c) + tail;
    if c == Quote {
      assert t[0] == Quote && t[1] == Quote && t[2..] == tail;
    } else {
      assert t[0] == c && t[1..] == tail;
    }
  }

  /** Conversely, whatever a literal reads as, its body is that value escaped. */
  lemma {:induction false} ReadLiteralIsEscape(t: string)
    requires ReadLiteral(t).Some?
    ensures t == Escape(ReadLiteral(t).value.0) + [Quote] + ReadLiteral(t).value.1
    decreases |t|
  {
    if t[0] != Quote {
      var (u, rest) := ReadLiteral(t[1..]).value;
      ReadLiteralIsEscape(t[1..]);
      EscapeConsLiteral(t[0], u, rest, t[1..]);
      assert t == EscapeChar(t[0]) + t[1..];
    } else if |t| >= 2 && t[1] == Quote {
      var (u, rest) := ReadLiteral(t[2..]).value;
      ReadLiteralIsEscape(t[2..]);
      EscapeConsLiteral(Quote, u, rest, t[2..]);
      assert t == EscapeChar(Quote) + t[2..];
    } else {
      assert t == [Quote] + t[1..];
    }
  }

  lemma EscapeConsLiteral(c: char, u: string, rest: string, tail: string)
    requires tail == Escape(u) + [Quote] + rest
    ensures EscapeChar(c) + tail == Escape([c] + u) + [Quote] + rest
  {
    assert ([c] + u)[1..] == u;
  }
}
