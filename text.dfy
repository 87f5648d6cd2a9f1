/** Scanning strings: the one primitive the parsers below are built from. */
module Text {
  import opened Options

  /** Splits `s` just before its first character that fails `p`: the longest
      prefix whose characters all satisfy `p`, and what follows it. */
  function Span(s: string, p: char -> bool): (r: (string, string))
    ensures r.0 + r.1 == s
    ensures forall i :: 0 <= i < |r.0| ==> p(r.0[i])
    ensures r.1 == [] || !p(r.1[0])
  {
    if |s| > 0 && p(s[0]) then
      var (front, rest) := Span(s[1..], p);
      ([s[0]] + front, rest)
    else
      ([], s)
  }

  /** The split of Span is the only one with its three properties: a prefix of
      `p`-characters followed by nothing or by a character failing `p`. */
  lemma {:induction false} SpanOf(front: string, rest: string, p: char -> bool)
    requires forall i :: 0 <= i < |front| ==> p(front[i])
    requires rest == [] || !p(rest[0])
    ensures Span(front + rest, p) == (front, rest)
  {
    if front != [] {
      assert (front + rest)[1..] == front[1..] + rest;
      SpanOf(front[1..], rest, p);
      assert front == [front[0]] + front[1..];
    } else {
      assert front + rest == rest;
    }
  }

  /** What follows `prefix` in `s`, if `s` starts with it. */
  function StripPrefix(s: string, prefix: string): Option<string>
  {
    if |prefix| <= |s| && s[..|prefix|] == prefix then Some(s[|prefix|..]) else None
  }

  /** Stripping `prefix` leaves `rest` exactly when `s` is `prefix + rest`. */
  lemma StripPrefixIff(s: string, prefix: string, rest: string)
    ensures StripPrefix(s, prefix) == Some(rest) <==> s == prefix + rest
  {
  }
}
