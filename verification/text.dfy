/** String helpers the components rely on: ASCII lower-casing, suffix tests,
    the `split('/')` / `pop()` base-name rule and decimal rendering of
    naturals (JavaScript's number-to-string conversion for non-negative
    integers). Strings are sequences of characters; no Unicode case mapping
    is modelled.
 */
module Text {

  /* ---------------------------------------------------------------- */
  /* Lower-casing                                                      */
  /* ---------------------------------------------------------------- */

  predicate IsUpper(c: char)
  {
    'A' <= c <= 'Z'
  }

  function LowerChar(c: char): char
  {
    if IsUpper(c) then (c as int + 32) as char else c
  }

  /** ASCII `toLowerCase`. */
  function Lower(s: string): (r: string)
    ensures |r| == |s|
    ensures forall i :: 0 <= i < |r| ==> !IsUpper(r[i])
    ensures forall i :: 0 <= i < |s| && !IsUpper(s[i]) ==> r[i] == s[i]
    ensures forall i :: 0 <= i < |s| && IsUpper(s[i]) ==> r[i] as int == s[i] as int + 32
  {
    seq(|s|, i requires 0 <= i < |s| => LowerChar(s[i]))
  }

  /** Lower-casing twice is lower-casing once. */
  lemma LowerIdempotent(s: string)
    ensures Lower(Lower(s)) == Lower(s)
  {
  }

  /* ---------------------------------------------------------------- */
  /* Suffixes                                                          */
  /* ---------------------------------------------------------------- */

  /** `s.endsWith(suffix)` */
  predicate EndsWith(s: string, suffix: string)
  {
    |suffix| <= |s| && s[|s| - |suffix|..] == suffix
  }

  /** `s.startsWith(prefix)` */
  predicate StartsWith(s: string, prefix: string)
  {
    |prefix| <= |s| && s[..|prefix|] == prefix
  }

  /** `suffixes.some(x => s.endsWith(x))`, walked left to right. */
  function EndsWithAny(s: string, suffixes: seq<string>): (b: bool)
    ensures b <==> exists i :: 0 <= i < |suffixes| && EndsWith(s, suffixes[i])
  {
    if |suffixes| == 0 then false
    else if EndsWith(s, suffixes[0]) then true
    else
      var rest := EndsWithAny(s, suffixes[1..]);
      assert forall i :: 1 <= i < |suffixes| ==> suffixes[i] == suffixes[1..][i - 1];
      rest
  }

  /* ---------------------------------------------------------------- */
  /* Path segments                                                     */
  /* ---------------------------------------------------------------- */

  /** Index of the first `/` in `s`. */
  function FirstSlash(s: string): (i: nat)
    requires '/' in s
    ensures i < |s| && s[i] == '/'
    ensures '/' !in s[..i]
  {
    if s[0] == '/' then 0
    else
      assert '/' in s[1..] by {
        var j :| 0 <= j < |s| && s[j] == '/';
        assert s[1..][j - 1] == '/';
      }
      var i := 1 + FirstSlash(s[1..]);
      assert s[..i] == [s[0]] + s[1..][..i - 1];
      i
  }

  /** `s.split('/')`: the maximal slash-free pieces between separators, in
      order; there is always at least one piece. */
  function Split(s: string): (parts: seq<string>)
    ensures |parts| >= 1
    ensures forall k :: 0 <= k < |parts| ==> '/' !in parts[k]
    decreases |s|
  {
    if '/' !in s then [s]
    else
      var i := FirstSlash(s);
      [s[..i]] + Split(s[i + 1..])
  }

  /** `parts.join('/')` */
  function Join(parts: seq<string>): string
  {
    if |parts| == 0 then ""
    else if |parts| == 1 then parts[0]
    else parts[0] + "/" + Join(parts[1..])
  }

  /** Splitting on `/` and joining with `/` gives the string back. */
  lemma {:induction false} JoinSplit(s: string)
    ensures Join(Split(s)) == s
    decreases |s|
  {
    if '/' in s {
      var i := FirstSlash(s);
      var rest := s[i + 1..];
      JoinSplit(rest);
      assert Split(s) == [s[..i]] + Split(rest);
      assert s == s[..i] + "/" + rest;
    }
  }

  /** Index just past the last `/` of `s`, or 0 when it has none. */
  function SegmentStart(s: string): (i: nat)
    ensures i <= |s|
    ensures '/' !in s[i..]
    ensures i == 0 || s[i - 1] == '/'
  {
    if |s| == 0 || s[|s| - 1] == '/' then |s|
    else
      var init := s[..|s| - 1];
      var j := SegmentStart(init);
      assert s[j..] == init[j..] + [s[|s| - 1]];
      j
  }

  /** The text after the last `/` of `s` (all of `s` when it has none). */
  function LastSegment(s: string): (seg: string)
    ensures '/' !in seg
    ensures EndsWith(s, seg)
    ensures seg == s || s[|s| - |seg| - 1] == '/'
  {
    s[SegmentStart(s)..]
  }

  /** A slash-free suffix that is either the whole string or follows a `/`
      is the last segment: the characterisation above is exact. */
  lemma LastSegmentUnique(s: string, t: string)
    requires '/' !in t && EndsWith(s, t)
    requires t == s || s[|s| - |t| - 1] == '/'
    ensures t == LastSegment(s)
  {
  }

  /** Dropping everything up to a `/` keeps the last segment. */
  lemma LastSegmentAfterSlash(s: string, i: nat)
    requires i < |s| && s[i] == '/'
    ensures LastSegment(s[i + 1..]) == LastSegment(s)
  {
  }

  /** `s.split('/').pop()` is the last segment computed from the right. */
  lemma {:induction false} LastOfSplit(s: string)
    ensures Split(s)[|Split(s)| - 1] == LastSegment(s)
    decreases |s|
  {
    if '/' !in s {
      assert Split(s) == [s];
      LastSegmentUnique(s, s);
    } else {
      var i := FirstSlash(s);
      var rest := s[i + 1..];
      calc {
        Split(s)[|Split(s)| - 1];
      == { assert Split(s) == [s[..i]] + Split(rest); }
        Split(rest)[|Split(rest)| - 1];
      == { LastOfSplit(rest); }
        LastSegment(rest);
      == { LastSegmentAfterSlash(s, i); }
        LastSegment(s);
      }
    }
  }

  /** `key.split('/').pop() || key`: the base name shown as an image's title
      and used as its download file name. */
  function DisplayName(key: string): (name: string)
    ensures LastSegment(key) != "" ==> name == LastSegment(key)
    ensures LastSegment(key) == "" ==> name == key
    ensures '/' !in key ==> name == key
    ensures LastSegment(key) != "" ==> '/' !in name && EndsWith(key, name)
  {
    var parts := Split(key);
    LastOfSplit(key);
    var last := parts[|parts| - 1];
    if last != "" then last else key
  }

  /* ---------------------------------------------------------------- */
  /* Decimal numerals                                                  */
  /* ---------------------------------------------------------------- */

  predicate IsDigit(c: char)
  {
    '0' <= c <= '9'
  }

  function DigitChar(d: nat): (c: char)
    requires d < 10
    ensures IsDigit(c)
  {
    ('0' as int + d) as char
  }

  function DigitValue(c: char): (d: nat)
    requires IsDigit(c)
    ensures d < 10
  {
    c as int - '0' as int
  }

  /** `String(n)` for a non-negative integer: shortest decimal numeral. */
  function DecimalString(n: nat): (r: string)
    ensures |r| >= 1
    ensures forall i :: 0 <= i < |r| ==> IsDigit(r[i])
    ensures |r| > 1 ==> r[0] != '0'
  {
    if n < 10 then [DigitChar(n)]
    else DecimalString(n / 10) + [DigitChar(n % 10)]
  }

  /** Reads a string of decimal digits as a natural number. */
  function ParseDecimal(s: string): nat
    requires forall i :: 0 <= i < |s| ==> IsDigit(s[i])
  {
    if |s| == 0 then 0
    else ParseDecimal(s[..|s| - 1]) * 10 + DigitValue(s[|s| - 1])
  }

  /** Reading back a rendered number gives the number. */
  lemma {:induction false} ParseDecimalString(n: nat)
    ensures ParseDecimal(DecimalString(n)) == n
  {
    if n >= 10 {
      ParseDecimalString(n / 10);
      var r := DecimalString(n);
      assert r[..|r| - 1] == DecimalString(n / 10);
    }
  }

  /** Different numbers render differently. */
  lemma DecimalStringInjective(m: nat, n: nat)
    requires DecimalString(m) == DecimalString(n)
    ensures m == n
  {
    ParseDecimalString(m);
    ParseDecimalString(n);
  }
}
