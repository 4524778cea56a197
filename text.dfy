/** The few JavaScript string built-ins the parking map relies on:
    `String(n)` for a non-negative integer, `padStart`, `trim` and `toUpperCase`. */
module JsText {

  // ---------------------------------------------------------------------------
  // Decimal rendering: String(n) for a non-negative integer n
  // ---------------------------------------------------------------------------

  predicate IsDigit(c: char) {
    '0' <= c <= '9'
  }

  predicate AllDigits(s: string) {
    forall k :: 0 <= k < |s| ==> IsDigit(s[k])
  }

  function DigitChar(d: nat): (c: char)
    requires d < 10
    ensures IsDigit(c) && c as int - '0' as int == d
  {
    ('0' as int + d) as char
  }

  /** The value of a string of decimal digits, most significant digit first. */
  function DecimalValue(s: string): nat
    requires AllDigits(s)
  {
    if s == [] then 0
    else DecimalValue(s[..|s| - 1]) * 10 + (s[|s| - 1] as int - '0' as int)
  }

  /** `String(n)`: the shortest decimal spelling of n, which reads back as n. */
  function NatToString(n: nat): (s: string)
    ensures 1 <= |s| && AllDigits(s)
    ensures DecimalValue(s) == n
    ensures s[0] == '0' ==> n == 0
    ensures |s| == 1 <==> n < 10
    decreases n
  {
    if n < 10 then [DigitChar(n)]
    else
      var init := NatToString(n / 10);
      var s := init + [DigitChar(n % 10)];
      assert s[..|s| - 1] == init;
      s
  }

  // ---------------------------------------------------------------------------
  // String.prototype.padStart(target, fill) with a one-character fill
  // ---------------------------------------------------------------------------

  function PadStart(s: string, target: nat, fill: char): (r: string)
    ensures |r| == if |s| >= target then |s| else target
    ensures r[|r| - |s|..] == s
    ensures forall k :: 0 <= k < |r| - |s| ==> r[k] == fill
  {
    if |s| >= target then s else seq(target - |s|, _ => fill) + s
  }

  /** Leading zeros do not change the value of a digit string. */
  lemma {:induction false} LeadingZeros(z: string, s: string)
    requires forall k :: 0 <= k < |z| ==> z[k] == '0'
    requires AllDigits(s)
    ensures AllDigits(z + s) && DecimalValue(z + s) == DecimalValue(s)
  {
    if s == [] {
      assert z + s == z;
      AllZeros(z);
    } else {
      var s' := s[..|s| - 1];
      LeadingZeros(z, s');
      assert (z + s)[..|z + s| - 1] == z + s';
    }
  }

  lemma {:induction false} AllZeros(z: string)
    requires forall k :: 0 <= k < |z| ==> z[k] == '0'
    ensures AllDigits(z) && DecimalValue(z) == 0
  {
    if z != [] {
      AllZeros(z[..|z| - 1]);
    }
  }

  /** `String(n).padStart(2, "0")`, the slot number format. */
  function TwoDigits(n: nat): (s: string)
    ensures AllDigits(s) && DecimalValue(s) == n
    ensures n < 100 ==> |s| == 2
    ensures n >= 100 ==> s == NatToString(n)
  {
    var d := NatToString(n);
    var s := PadStart(d, 2, '0');
    assert s == s[..|s| - |d|] + d;
    LeadingZeros(s[..|s| - |d|], d);
    s
  }

  // ---------------------------------------------------------------------------
  // String.prototype.trim
  // ---------------------------------------------------------------------------

  /** The code points of the ECMAScript WhiteSpace and LineTerminator productions
      outside the range U+2000 to U+200A, which `trim` also removes. */
  const JsWhiteSpaceCodes: set<int> :=
    {0x09, 0x0A, 0x0B, 0x0C, 0x0D, 0x20, 0xA0, 0x1680, 0x2028, 0x2029, 0x202F, 0x205F, 0x3000, 0xFEFF}

  /** The characters `trim` removes. */
  predicate IsJsWhiteSpace(c: char) {
    c as int in JsWhiteSpaceCodes || 0x2000 <= c as int <= 0x200A
  }

  /** Capital letters and digits are not white space. */
  lemma CapitalOrDigitNotWhiteSpace(c: char)
    requires 'A' <= c <= 'Z' || IsDigit(c)
    ensures !IsJsWhiteSpace(c)
  {
  }

  /** What is left of s once its leading white space is dropped: a suffix of s. */
  function TrimStart(s: string): (r: string)
    ensures |r| <= |s| && r == s[|s| - |r|..]
    ensures forall k :: 0 <= k < |s| - |r| ==> IsJsWhiteSpace(s[k])
    ensures r == [] || !IsJsWhiteSpace(r[0])
  {
    if s != [] && IsJsWhiteSpace(s[0]) then TrimStart(s[1..]) else s
  }

  /** What is left of s once its trailing white space is dropped: a prefix of s. */
  function TrimEnd(s: string): (r: string)
    ensures |r| <= |s| && r == s[..|r|]
    ensures forall k :: |r| <= k < |s| ==> IsJsWhiteSpace(s[k])
    ensures r == [] || !IsJsWhiteSpace(r[|r| - 1])
  {
    if s != [] && IsJsWhiteSpace(s[|s| - 1]) then TrimEnd(s[..|s| - 1]) else s
  }

  /** `s.trim()`: the part of s between its leading and its trailing white space. */
  function Trim(s: string): (r: string)
    ensures |r| <= |s|
    ensures r == [] || (!IsJsWhiteSpace(r[0]) && !IsJsWhiteSpace(r[|r| - 1]))
  {
    TrimEnd(TrimStart(s))
  }

  /** s is the white space `trim` drops in front, then what `trim` keeps, then the
      white space it drops behind. */
  lemma TrimSplits(s: string)
    ensures var n := |s| - |TrimStart(s)|;
      var m := n + |Trim(s)|;
      && m <= |s|
      && s == s[..n] + Trim(s) + s[m..]
      && AllJsWhiteSpace(s[..n]) && AllJsWhiteSpace(s[m..])
  {
    var t := TrimStart(s);
    var r := TrimEnd(t);
    var n := |s| - |t|;
    var m := n + |r|;
    assert t == s[n..] && r == t[..|r|];
    SliceOfSuffix(s, n, |r|);
    assert r == s[n..m];
    SliceConcat(s, n, m);
    TrimDropsWhiteSpace(s);
  }

  lemma TrimDropsWhiteSpace(s: string)
    ensures var n := |s| - |TrimStart(s)|;
      var m := n + |Trim(s)|;
      m <= |s| && AllJsWhiteSpace(s[..n]) && AllJsWhiteSpace(s[m..])
  {
    var t := TrimStart(s);
    var r := TrimEnd(t);
    var n := |s| - |t|;
    WhiteSpacePrefix(s, n);
    WhiteSpaceSuffix(t, |r|);
    SuffixOfSuffix(s, n, |r|);
  }

  lemma WhiteSpacePrefix(s: string, n: nat)
    requires n <= |s| && forall k :: 0 <= k < n ==> IsJsWhiteSpace(s[k])
    ensures AllJsWhiteSpace(s[..n])
  {
    forall k | 0 <= k < n ensures IsJsWhiteSpace(s[..n][k]) {
      assert s[..n][k] == s[k];
    }
  }

  lemma WhiteSpaceSuffix(s: string, m: nat)
    requires m <= |s| && forall k :: m <= k < |s| ==> IsJsWhiteSpace(s[k])
    ensures AllJsWhiteSpace(s[m..])
  {
    forall k | 0 <= k < |s| - m ensures IsJsWhiteSpace(s[m..][k]) {
      assert s[m..][k] == s[m + k];
    }
  }

  lemma SuffixOfSuffix(s: string, n: nat, l: nat)
    requires n + l <= |s|
    ensures s[n..][l..] == s[n + l..]
  {
  }

  lemma SliceOfSuffix(s: string, n: nat, l: nat)
    requires n + l <= |s|
    ensures s[n..][..l] == s[n..n + l]
  {
  }

  lemma SliceConcat(s: string, n: nat, m: nat)
    requires n <= m <= |s|
    ensures s == s[..n] + s[n..m] + s[m..]
  {
  }

  predicate AllJsWhiteSpace(w: string) {
    forall k :: 0 <= k < |w| ==> IsJsWhiteSpace(w[k])
  }

  lemma {:induction false} TrimStartPadded(w: string, s: string)
    requires AllJsWhiteSpace(w)
    requires s == [] || !IsJsWhiteSpace(s[0])
    ensures TrimStart(w + s) == s
  {
    if w == [] {
      assert w + s == s;
    } else {
      assert (w + s)[1..] == w[1..] + s;
      TrimStartPadded(w[1..], s);
    }
  }

  lemma {:induction false} TrimEndPadded(s: string, w: string)
    requires AllJsWhiteSpace(w)
    requires s == [] || !IsJsWhiteSpace(s[|s| - 1])
    ensures TrimEnd(s + w) == s
  {
    if w == [] {
      assert s + w == s;
    } else {
      var w' := w[..|w| - 1];
      assert (s + w)[..|s + w| - 1] == s + w';
      TrimEndPadded(s, w');
    }
  }

  /** `trim` removes exactly the white space around a word that has none at its ends. */
  lemma TrimPadded(w1: string, s: string, w2: string)
    requires AllJsWhiteSpace(w1) && AllJsWhiteSpace(w2)
    requires s != [] && !IsJsWhiteSpace(s[0]) && !IsJsWhiteSpace(s[|s| - 1])
    ensures Trim(w1 + s + w2) == s
  {
    assert w1 + s + w2 == w1 + (s + w2);
    TrimStartPadded(w1, s + w2);
    TrimEndPadded(s, w2);
  }

  /** A string with no white space at either end is its own trim. */
  lemma TrimKeepsClean(s: string)
    requires s == [] || (!IsJsWhiteSpace(s[0]) && !IsJsWhiteSpace(s[|s| - 1]))
    ensures Trim(s) == s
  {
  }

  lemma TrimIdempotent(s: string)
    ensures Trim(Trim(s)) == Trim(s)
  {
    TrimKeepsClean(Trim(s));
  }

  // ---------------------------------------------------------------------------
  // String.prototype.toUpperCase, on the ASCII letters
  // ---------------------------------------------------------------------------

  predicate IsAsciiLower(c: char) {
    'a' <= c <= 'z'
  }

  function UpperChar(c: char): (u: char)
    ensures !IsAsciiLower(u)
    ensures !IsAsciiLower(c) ==> u == c
    ensures IsAsciiLower(c) ==> 'A' <= u <= 'Z' && u as int - 'A' as int == c as int - 'a' as int
  {
    if IsAsciiLower(c) then (c as int - 32) as char else c
  }

  /** `s.toUpperCase()`: s with each lower-case letter replaced by its capital. */
  function ToUpper(s: string): (r: string)
    ensures |r| == |s|
    ensures forall k :: 0 <= k < |s| ==> r[k] == UpperChar(s[k])
  {
    if s == [] then [] else [UpperChar(s[0])] + ToUpper(s[1..])
  }

  predicate NoLower(s: string) {
    forall k :: 0 <= k < |s| ==> !IsAsciiLower(s[k])
  }

  /** Upper-casing leaves a string with no lower-case letter unchanged. */
  lemma {:induction false} UpperOfNoLower(s: string)
    requires NoLower(s)
    ensures ToUpper(s) == s
  {
    if s != [] {
      assert NoLower(s[1..]) by {
        forall k | 0 <= k < |s[1..]| ensures !IsAsciiLower(s[1..][k]) {
          assert s[1..][k] == s[k + 1];
        }
      }
      UpperOfNoLower(s[1..]);
    }
  }

  /** A capital letter followed by digits has no lower-case letter, so upper-casing
      it changes nothing. */
  lemma CapitalThenDigits(s: string)
    requires |s| >= 1 && 'A' <= s[0] <= 'Z' && AllDigits(s[1..])
    ensures NoLower(s) && ToUpper(s) == s
  {
    forall k | 1 <= k < |s| ensures !IsAsciiLower(s[k]) {
      assert s[k] == s[1..][k - 1];
    }
    UpperOfNoLower(s);
  }

  /** Upper-casing never turns a character that is not white space into one that is. */
  lemma UpperKeepsNonWhiteSpace(c: char)
    requires !IsJsWhiteSpace(UpperChar(c))
    ensures !IsJsWhiteSpace(c)
  {
  }

  lemma UpperIdempotent(s: string)
    ensures NoLower(ToUpper(s)) && ToUpper(ToUpper(s)) == ToUpper(s)
  {
    UpperOfNoLower(ToUpper(s));
  }
}
