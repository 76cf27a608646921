/** The two passes of `parse_string` over one literal: the first measures, the second writes. They
    do not take a `\\u` escape for the same number of characters, so the second one can leave what
    the first one measured. */
module JsonLiteral {
  import opened CText
  import opened JsonParser

  /** How far the second pass moves at a backslash: 2, 6 or 12 characters. */
  function EscapeSpan(s: Text): (n: nat)
    requires s != [] && s[0] == BACKSLASH
    ensures n == 2 || n == 6 || n == 12
  {
    if |s| == 1 || s[1] != 117 then 2 else UnicodeEscape(s).1
  }

  /** Where the second pass stops, or has run to when it leaves the text. */
  function Stop(s: Text): nat {
    if s == [] || s[0] == QUOTE then 0
    else if s[0] != BACKSLASH then 1 + Stop(s[1..])
    else
      var n := EscapeSpan(s);
      if n > |s| then n else n + Stop(s[n..])
  }

  /** No escape that the second pass comes to ends behind the first `e` characters. */
  predicate Contained(s: Text, e: nat)
    requires e <= |s|
  {
    if e == 0 || s[0] == QUOTE then true
    else if s[0] != BACKSLASH then Contained(s[1..], e - 1)
    else EscapeSpan(s) <= e && Contained(s[EscapeSpan(s)..], e - EscapeSpan(s))
  }

  // ----- the first pass seen from any character

  /** The state of the first pass in front of a character: `escaped` if it takes the character
      together with a backslash before it. */
  predicate PairedFrom(s: Text, escaped: bool) {
    if escaped then s != [] && Paired(s[1..]) else Paired(s)
  }

  function ReachFrom(s: Text, escaped: bool): (n: nat)
    requires PairedFrom(s, escaped)
    ensures n <= |s| && (escaped ==> n >= 1)
  {
    if escaped then 1 + Reach(s[1..]) else Reach(s)
  }

  function CountFrom(s: Text, escaped: bool): nat
    requires PairedFrom(s, escaped)
  {
    if escaped then 1 + Count(s[1..]) else Count(s)
  }

  /** The state `n` characters further on. */
  function Further(s: Text, escaped: bool, n: nat): bool
    requires n <= |s|
  {
    if n == 0 then escaped else Further(s[1..], !escaped && s[0] == BACKSLASH, n - 1)
  }

  function NotBackslashes(s: Text, n: nat): nat
    requires n <= |s|
  {
    if n == 0 then 0 else NotBackslashes(s, n - 1) + if s[n - 1] != BACKSLASH then 1 else 0
  }

  /** One character on: unless it starts a pair, the first pass has counted it. */
  lemma OneFurther(s: Text, escaped: bool)
    requires PairedFrom(s, escaped) && ReachFrom(s, escaped) > 0
    ensures s != []
    ensures var next := !escaped && s[0] == BACKSLASH;
            && PairedFrom(s[1..], next) && ReachFrom(s[1..], next) == ReachFrom(s, escaped) - 1
            && CountFrom(s[1..], next) == CountFrom(s, escaped) - if next then 0 else 1
  {
    if !escaped && s[0] == BACKSLASH { assert s[1..][1..] == s[2..]; }
  }

  /** `n` characters on, at least those that are no backslash have been counted. */
  lemma {:induction false} ManyFurther(s: Text, escaped: bool, n: nat)
    requires PairedFrom(s, escaped) && n <= ReachFrom(s, escaped)
    ensures var next := Further(s, escaped, n);
            && PairedFrom(s[n..], next) && ReachFrom(s[n..], next) == ReachFrom(s, escaped) - n
            && CountFrom(s[n..], next) + NotBackslashes(s, n) <= CountFrom(s, escaped)
    decreases n
  {
    if n == 0 {
      assert s[0..] == s;
    } else {
      OneFurther(s, escaped);
      ManyFurther(s[1..], !escaped && s[0] == BACKSLASH, n - 1);
      assert s[1..][n - 1..] == s[n..];
      NotBackslashesFirst(s, n);
    }
  }

  lemma {:induction false} NotBackslashesFirst(s: Text, n: nat)
    requires 0 < n <= |s|
    ensures NotBackslashes(s, n) == NotBackslashes(s[1..], n - 1) + if s[0] != BACKSLASH then 1 else 0
  {
    if n > 1 { NotBackslashesFirst(s, n - 1); }
  }

  // ----- the second pass

  /** What an escape yields was counted among the characters it spans. */
  lemma SpanCounted(s: Text, escaped: bool)
    requires PairedFrom(s, escaped) && s != [] && s[0] == BACKSLASH && EscapeSpan(s) <= ReachFrom(s, escaped)
    ensures var n := EscapeSpan(s);
            var bytes := if s[1] != 117 then 1 else |UnicodeEscape(s).0|;
            var next := Further(s, escaped, n);
            && PairedFrom(s[n..], next) && ReachFrom(s[n..], next) == ReachFrom(s, escaped) - n
            && CountFrom(s[n..], next) + bytes <= CountFrom(s, escaped)
  {
    var n := EscapeSpan(s);
    ManyFurther(s, escaped, n);
    if s[1] != 117 {
      PairCounted(s, escaped);
    } else if UnicodeEscape(s).0 != [] {
      DigitsCounted(s, n);
    }
  }

  lemma PairCounted(s: Text, escaped: bool)
    requires PairedFrom(s, escaped) && ReachFrom(s, escaped) >= 2
    ensures var next := Further(s, escaped, 2);
            PairedFrom(s[2..], next) && CountFrom(s[2..], next) + 1 <= CountFrom(s, escaped)
  {
    OneFurther(s, escaped);
    var one := !escaped && s[0] == BACKSLASH;
    OneFurther(s[1..], one);
    assert s[1..][1..] == s[2..];
    assert Further(s[1..], one, 1) == Further(s[2..], !one && s[1..][0] == BACKSLASH, 0);
  }

  /** The digits of an escape that yields bytes are no backslashes. */
  lemma DigitsCounted(s: Text, n: nat)
    requires |s| >= 2 && s[0] == BACKSLASH && s[1] == 117 && UnicodeEscape(s).0 != [] && n == UnicodeEscape(s).1 <= |s|
    ensures NotBackslashes(s, n) >= 4 >= |UnicodeEscape(s).0|
  {
    assert Hex4(s[2..]) != 0;
    assert forall i | 2 <= i < 6 :: s[i] == At(s[2..], i - 2);
    assert NotBackslashes(s, 6) >= 4 by {
      assert NotBackslashes(s, 6) == NotBackslashes(s, 5) + 1;
      assert NotBackslashes(s, 5) == NotBackslashes(s, 4) + 1;
      assert NotBackslashes(s, 4) == NotBackslashes(s, 3) + 1;
      assert NotBackslashes(s, 3) == NotBackslashes(s, 2) + 1;
    }
    NotBackslashesMore(s, 6, n);
  }

  lemma {:induction false} NotBackslashesMore(s: Text, k: nat, n: nat)
    requires k <= n <= |s|
    ensures NotBackslashes(s, k) <= NotBackslashes(s, n)
    decreases n
  {
    if k < n { NotBackslashesMore(s, k, n - 1); }
  }

  /** Contained escapes: the second pass stops within the measured characters and has written no
      more than was counted, whatever state the first pass was in. */
  lemma {:induction false} ContainedFits(s: Text, escaped: bool)
    requires PairedFrom(s, escaped) && Contained(s, ReachFrom(s, escaped))
    ensures Unescape(s).Ok? && Stop(s) <= ReachFrom(s, escaped)
    ensures |Unescape(s).value| <= CountFrom(s, escaped)
    decreases |s|
  {
    if s == [] || s[0] == QUOTE {
    } else if s[0] != BACKSLASH {
      OneFurther(s, escaped);
      ContainedFits(s[1..], false);
    } else {
      SpanCounted(s, escaped);
      var n := EscapeSpan(s);
      ContainedFits(s[n..], Further(s, escaped, n));
    }
  }

  /** An escape that is not contained takes the second pass out of the measured characters. */
  lemma {:induction false} UncontainedLeaves(s: Text, e: nat)
    requires e <= |s| && !Contained(s, e)
    ensures Stop(s) > e
    decreases |s|
  {
    if s[0] != BACKSLASH {
      UncontainedLeaves(s[1..], e - 1);
    } else if EscapeSpan(s) <= e {
      UncontainedLeaves(s[EscapeSpan(s)..], e - EscapeSpan(s));
    }
  }

  /** The second pass stays inside the literal that the first one measured, and writes at most
      what it counted, exactly when no escape it comes to extends beyond that literal. */
  lemma LiteralFits(s: Text)
    requires Paired(s)
    ensures (Unescape(s).Ok? && Stop(s) <= Reach(s) && |Unescape(s).value| <= Count(s)) <==> Contained(s, Reach(s))
  {
    if Contained(s, Reach(s)) { ContainedFits(s, false); } else { UncontainedLeaves(s, Reach(s)); }
  }

  /** What is left when the second pass has stopped. */
  lemma {:induction false} StopIsWhereItEnds(s: Text)
    ensures Unescape(s).Ok? <==> Stop(s) <= |s|
    ensures Unescape(s).Ok? ==> Unescape(s).rest == if Stop(s) < |s| then s[Stop(s) + 1..] else []
    decreases |s|
  {
    if s == [] || s[0] == QUOTE {
    } else {
      var n := if s[0] != BACKSLASH then 1 else EscapeSpan(s);
      if n <= |s| {
        StopIsWhereItEnds(s[n..]);
        assert Stop(s) < |s| ==> s[n..][Stop(s[n..]) + 1..] == s[Stop(s) + 1..];
      }
    }
  }

  /** A literal with contained escapes is read. */
  lemma LiteralRead(s: Text, body: Text, value: Text, rest: Text)
    requires s == [QUOTE] + body && Paired(body) && Contained(body, Reach(body)) && Unescape(body) == Ok(value, rest)
    ensures ParseString(s) == Ok(value, rest)
  {
    LiteralFits(body);
    assert s[1..] == body;
  }

  // ----- literals on which the passes disagree

  const U: Ch := 117
  const A: Ch := 97
  const DIGIT: Ch := 49

  /** The escape takes the quote with it: one byte is counted and two are written. */
  lemma QuoteInEscape()
    ensures var s := [BACKSLASH, U, QUOTE, A, A, A, A, A, QUOTE];
            && Paired(s) && Reach(s) == 2 && Count(s) == 1
            && Unescape(s) == Ok([A, A], []) && ParseString([QUOTE] + s) == Overrun
  {
    var s: Text := [BACKSLASH, U, QUOTE, A, A, A, A, A, QUOTE];
    assert s[2..][0] == QUOTE && Paired(s[2..]) && Reach(s[2..]) == 0;
    PairFirst(s);
    assert UnicodeEscape(s) == ([], 6) && s[6..] == [A, A, QUOTE];
    TwoPlain(A);
    assert Unescape(s) == Prepend([], Unescape(s[6..])) && [] + [A, A] == [A, A];
    assert ([QUOTE] + s)[1..] == s;
  }

  lemma PlainFirst(t: Text)
    requires t != [] && t[0] != QUOTE && t[0] != BACKSLASH && Paired(t[1..])
    ensures Unescape(t) == Prepend([t[0]], Unescape(t[1..]))
    ensures Paired(t) && Reach(t) == 1 + Reach(t[1..]) && Count(t) == 1 + Count(t[1..])
    ensures Contained(t, Reach(t)) == Contained(t[1..], Reach(t[1..]))
  {
  }

  lemma PairFirst(t: Text)
    requires |t| >= 2 && t[0] == BACKSLASH && Paired(t[2..])
    ensures Paired(t) && Reach(t) == 2 + Reach(t[2..]) && Count(t) == 1 + Count(t[2..])
  {
  }

  lemma TwoPlain(c: Ch)
    requires c != QUOTE && c != BACKSLASH
    ensures var t := [c, c, QUOTE];
            Unescape(t) == Ok([c, c], []) && Paired(t) && Reach(t) == 2 && Count(t) == 2 && Contained(t, 2)
  {
    var t: Text := [c, c, QUOTE];
    var t1: Text, t2: Text := [c, QUOTE], [QUOTE];
    assert t2[1..] == [] && Unescape(t2) == Ok([], []) && Paired(t2) && Reach(t2) == 0 && Count(t2) == 0 && Contained(t2, 0);
    assert t1[1..] == t2 && [c] + [] == [c];
    PlainFirst(t1);
    assert t[1..] == t1 && [c] + [c] == [c, c];
    PlainFirst(t);
  }

  /** A backslash among the four characters does no harm as long as the span is inside. */
  lemma BackslashInEscape()
    ensures var s := [BACKSLASH, U, DIGIT, DIGIT, BACKSLASH, A, DIGIT, DIGIT, QUOTE];
            && Paired(s) && Contained(s, Reach(s)) && Unescape(s) == Ok([DIGIT, DIGIT], [])
            && ParseString([QUOTE] + s) == Ok([DIGIT, DIGIT], [])
  {
    var s: Text := [BACKSLASH, U, DIGIT, DIGIT, BACKSLASH, A, DIGIT, DIGIT, QUOTE];
    var t: Text := [DIGIT, DIGIT, QUOTE];
    TwoPlain(DIGIT);
    assert s[4..][2..] == t && s[3..][1..] == s[4..] && s[2..][1..] == s[3..];
    PairFirst(s[4..]);
    PlainFirst(s[3..]);
    PlainFirst(s[2..]);
    PairFirst(s);
    assert s[2..][2] == BACKSLASH;
    assert UnicodeEscape(s) == ([], 6) && s[6..] == t;
    assert Unescape(s) == Prepend([], Unescape(s[6..])) && [] + [DIGIT, DIGIT] == [DIGIT, DIGIT];
    LiteralRead([QUOTE] + s, s, [DIGIT, DIGIT], []);
  }

  /** Escapes of two characters matter as well: here the one that starts in the middle of a pair
      of backslashes takes the closing quote with it. */
  lemma PairSplitByEscape()
    ensures var s := [BACKSLASH, U, DIGIT, DIGIT, DIGIT, BACKSLASH, BACKSLASH, QUOTE];
            && Paired(s) && Reach(s) == 7 && EscapeSpan(s) == 6 && !Contained(s, 7)
  {
    var s: Text := [BACKSLASH, U, DIGIT, DIGIT, DIGIT, BACKSLASH, BACKSLASH, QUOTE];
    var quote: Text := [QUOTE];
    assert s[5..][2..] == quote && s[4..][1..] == s[5..] && s[3..][1..] == s[4..] && s[2..][1..] == s[3..];
    assert Paired(quote) && Reach(quote) == 0;
    PairFirst(s[5..]);
    PlainFirst(s[4..]);
    PlainFirst(s[3..]);
    PlainFirst(s[2..]);
    PairFirst(s);
    assert s[2..][3] == BACKSLASH;
    assert UnicodeEscape(s) == ([], 6) && s[6..] == [BACKSLASH, QUOTE];
  }
}
