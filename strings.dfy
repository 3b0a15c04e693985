/**
 * The two string_view helpers that the demo uses to print the line it read:
 * `trim_crlf` strips every trailing carriage return and line feed, and
 * `left_view` takes the first `n` characters of a string.
 *
 * A `string` here stands for the bytes of a `std::string_view`, one
 * character per byte; only '\r' and '\n' are ever compared.
 */
module StringViews {

  /** The characters `trim_crlf` strips: '\r' and '\n'. */
  predicate IsCrlf(c: char) {
    c == '\r' || c == '\n'
  }

  /** No line terminator at the end: `s` is empty or its last character is not CR/LF. */
  predicate EndsClean(s: string) {
    s == [] || !IsCrlf(s[|s| - 1])
  }

  /**
   * Reference definition of trimming: drop the last character while it is a
   * CR or an LF. Its contract is what the demo relies on: the result is a
   * prefix of the input, it does not end in CR/LF, and everything dropped
   * was CR/LF.
   */
  function TrimmedCrlf(s: string): (r: string)
    ensures r <= s
    ensures EndsClean(r)
    ensures forall i | |r| <= i < |s| :: IsCrlf(s[i])
    decreases |s|
  {
    if |s| > 0 && IsCrlf(s[|s| - 1]) then TrimmedCrlf(s[..|s| - 1]) else s
  }

  /**
   * `trim_crlf`: the loop reassigns the view to itself minus its last
   * character for as long as that character is '\r' or '\n'.
   */
  method TrimCrlf(sv: string) returns (r: string)
    ensures r == TrimmedCrlf(sv)
  {
    r := sv;
    while |r| != 0 && (r[|r| - 1] == '\r' || r[|r| - 1] == '\n')
      invariant TrimmedCrlf(r) == TrimmedCrlf(sv)
      decreases |r|
    {
      r := r[0..|r| - 1];
    }
  }

  /**
   * The three properties of TrimmedCrlf determine it: any prefix of `s`
   * that ends clean and leaves only CR/LF behind is the trimmed string.
   */
  lemma {:induction false} TrimCrlfUnique(s: string, r: string)
    requires r <= s
    requires EndsClean(r)
    requires forall i | |r| <= i < |s| :: IsCrlf(s[i])
    ensures r == TrimmedCrlf(s)
    decreases |s|
  {
    if |r| == |s| {
      assert r == s;
    } else {
      var p := s[..|s| - 1];
      assert IsCrlf(s[|s| - 1]);
      assert r <= p;
      TrimCrlfUnique(p, r);
    }
  }

  /** Trimming twice is trimming once. */
  lemma {:induction false} TrimCrlfIdempotent(s: string)
    ensures TrimmedCrlf(TrimmedCrlf(s)) == TrimmedCrlf(s)
  {
    var r := TrimmedCrlf(s);
    TrimCrlfUnique(r, r);
  }

  /** A string is returned unchanged exactly when it is empty or does not end in CR/LF. */
  lemma {:induction false} TrimCrlfUnchanged(s: string)
    ensures TrimmedCrlf(s) == s <==> EndsClean(s)
  {
    if EndsClean(s) {
      TrimCrlfUnique(s, s);
    }
  }

  /** Appending any run of CR/LF characters does not change the trimmed result. */
  lemma {:induction false} TrimCrlfIgnoresTerminators(s: string, t: string)
    requires forall i | 0 <= i < |t| :: IsCrlf(t[i])
    ensures TrimmedCrlf(s + t) == TrimmedCrlf(s)
  {
    var r := TrimmedCrlf(s);
    assert r <= s + t;
    forall i | |r| <= i < |s + t|
      ensures IsCrlf((s + t)[i])
    {
      if i >= |s| {
        assert (s + t)[i] == t[i - |s|];
      }
    }
    TrimCrlfUnique(s + t, r);
  }

  /**
   * `left_view`: the first `n` characters of `s`. The caller guarantees
   * `n <= |s|` (the count comes from the read that filled `s`).
   */
  function LeftView(s: string, n: nat): (r: string)
    requires n <= |s|
    ensures |r| == n && r <= s
  {
    s[..n]
  }

  /**
   * How the demo prints a line: `trim_crlf(left_view(line, n))` where the
   * first `n` characters of `line` are a message followed by its line
   * terminator, and anything read past it remains in `line`. The printed
   * text is exactly the message.
   */
  lemma {:induction false} PrintedMessage(message: string, terminator: string, rest: string)
    requires EndsClean(message)
    requires forall i | 0 <= i < |terminator| :: IsCrlf(terminator[i])
    ensures TrimmedCrlf(LeftView(message + terminator + rest, |message| + |terminator|)) == message
  {
    assert LeftView(message + terminator + rest, |message| + |terminator|) == message + terminator;
    TrimCrlfIgnoresTerminators(message, terminator);
    TrimCrlfUnchanged(message);
  }
}
