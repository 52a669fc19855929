/**
 * The string handling the shader binder relies on: prefix and suffix tests,
 * the "[0]" and "Transpose"/"Inverse" suffix chopping of reflect_uniform,
 * a model of the C library's sscanf (for the %d, %s and %n conversions used)
 * and strtol (used by string_to_int), decimal formatting as done by
 * sprintf("%u") and the output stream, and the dotted-name structure of
 * InternalName.
 */
module Names {
  import opened Wrappers

  predicate StartsWith(s: string, prefix: string) {
    |prefix| <= |s| && s[..|prefix|] == prefix
  }

  predicate EndsWith(s: string, suffix: string) {
    |suffix| <= |s| && s[|s| - |suffix|..] == suffix
  }

  lemma EndsWithConcat(b: string, w: string)
    ensures EndsWith(b + w, w)
    ensures (b + w)[..|b|] == b
  {
    assert (b + w)[|b + w| - |w|..] == w;
  }

  // ---------------------------------------------------------------------
  // Array suffix

  /**
   * Some drivers append "[0]" to the reported name of an array uniform.
   * Returns the name without it and whether it was there.
   */
  function StripArraySuffix(name: string): (r: (string, bool))
    ensures r.1 <==> |name| > 3 && EndsWith(name, "[0]")
    ensures r.1 ==> r.0 + "[0]" == name
    ensures !r.1 ==> r.0 == name
  {
    if |name| > 3 && name[|name| - 3..] == "[0]" then (name[..|name| - 3], true) else (name, false)
  }

  /** Putting "[0]" after a non-empty name and stripping it gives the name back. */
  lemma StripArraySuffixRoundTrip(base: string)
    requires |base| > 0
    ensures StripArraySuffix(base + "[0]") == (base, true)
  {
    EndsWithConcat(base, "[0]");
  }

  // ---------------------------------------------------------------------
  // Matrix suffixes

  datatype MatrixName = MatrixName(name: string, transpose: bool, inverse: bool)

  /**
   * Chops a "Transpose" suffix (only from names longer than 15 characters)
   * and then an "Inverse" suffix (only from what remains when it is longer
   * than 13 characters).
   */
  function SplitMatrixSuffixes(noprefix: string): (r: MatrixName)
    ensures r.transpose ==> |noprefix| > 15
    ensures r.inverse ==> |noprefix| > 13
    ensures r.name + (if r.inverse then "Inverse" else "") + (if r.transpose then "Transpose" else "") == noprefix
  {
    var size := |noprefix|;
    var transpose := size > 15 && EndsWith(noprefix, "Transpose");
    var m1 := if transpose then noprefix[..size - 9] else noprefix;
    var inverse := |m1| > 13 && EndsWith(m1, "Inverse");
    var m2 := if inverse then m1[..|m1| - 7] else m1;
    assert inverse ==> m2 + "Inverse" == m1;
    assert transpose ==> m1 + "Transpose" == noprefix;
    MatrixName(m2, transpose, inverse)
  }

  /** The name with the optional suffixes attached, in the order the shader writes them. */
  function WithSuffixes(base: string, inverse: bool, transpose: bool): string {
    base + (if inverse then "Inverse" else "") + (if transpose then "Transpose" else "")
  }

  /**
   * The length thresholds never misfire on a matrix name: any name longer
   * than 6 characters that ends in "Matrix" is recovered with both flags,
   * whichever suffixes were attached.
   */
  lemma SplitMatrixSuffixesRecovers(base: string, inverse: bool, transpose: bool)
    requires |base| > 6 && EndsWith(base, "Matrix")
    ensures SplitMatrixSuffixes(WithSuffixes(base, inverse, transpose)) == MatrixName(base, transpose, inverse)
  {
    var mid := base + (if inverse then "Inverse" else "");
    var full := WithSuffixes(base, inverse, transpose);
    assert full == mid + (if transpose then "Transpose" else "");
    if transpose {
      EndsWithConcat(mid, "Transpose");
    } else {
      assert full == mid;
      if inverse {
        EndsWithConcat(base, "Inverse");
        assert mid[|mid| - 3] == 'r';
      } else {
        assert mid == base;
        assert base[|base| - 3] == 'r';
      }
      assert !EndsWith(full, "Transpose");
    }
    assert SplitMatrixSuffixes(full).transpose == transpose;
    if inverse {
      EndsWithConcat(base, "Inverse");
    } else {
      assert mid == base;
      assert base[|base| - 1] == 'x';
      assert !EndsWith(base, "Inverse");
    }
  }

  // ---------------------------------------------------------------------
  // Characters and decimal numbers

  /** isspace in the C locale. */
  predicate IsSpace(c: char) {
    c == ' ' || c == '\t' || c == '\n' || c == '\r' || c == '\U{B}' || c == '\U{C}'
  }

  predicate IsDigit(c: char) {
    '0' <= c <= '9'
  }

  function DigitValue(c: char): nat
    requires IsDigit(c)
  {
    (c - '0') as nat
  }

  function DigitChar(d: nat): (c: char)
    requires d < 10
    ensures IsDigit(c) && DigitValue(c) == d
  {
    ('0' as int + d) as char
  }

  predicate AllDigits(s: string) {
    forall k :: 0 <= k < |s| ==> IsDigit(s[k])
  }

  /** The value of a string of decimal digits, most significant first. */
  function DecimalValue(s: string): nat
    requires AllDigits(s)
  {
    if s == [] then 0 else DecimalValue(s[..|s| - 1]) * 10 + DigitValue(s[|s| - 1])
  }

  /** The shortest decimal spelling of n, as sprintf("%u") writes it. */
  function NatToString(n: nat): (s: string)
    ensures |s| >= 1 && IsDigit(s[0])
    decreases n
  {
    if n < 10 then [DigitChar(n)] else NatToString(n / 10) + [DigitChar(n % 10)]
  }

  /** The decimal spelling of i, with a leading '-' when negative, as the output stream writes an int. */
  function IntToString(i: int): (s: string)
    ensures |s| >= 1
  {
    if i < 0 then "-" + NatToString(-i) else NatToString(i)
  }

  lemma {:induction false} NatToStringDigits(n: nat)
    ensures AllDigits(NatToString(n))
    ensures DecimalValue(NatToString(n)) == n
    decreases n
  {
    if n >= 10 {
      NatToStringDigits(n / 10);
      var s := NatToString(n);
      assert s[..|s| - 1] == NatToString(n / 10);
    }
  }

  /** Distinct numbers are printed differently: the synthesised names never collide. */
  lemma NatToStringInjective(m: nat, n: nat)
    requires NatToString(m) == NatToString(n)
    ensures m == n
  {
    NatToStringDigits(m);
    NatToStringDigits(n);
  }

  // ---------------------------------------------------------------------
  // Scanning, position by position

  /** The first position at or after i that is not whitespace. */
  function SkipSpaces(s: string, i: nat): (j: nat)
    requires i <= |s|
    ensures i <= j <= |s|
    ensures forall k :: i <= k < j ==> IsSpace(s[k])
    ensures j == |s| || !IsSpace(s[j])
    decreases |s| - i
  {
    if i < |s| && IsSpace(s[i]) then SkipSpaces(s, i + 1) else i
  }

  /** The end of the run of digits that starts at i. */
  function DigitsEnd(s: string, i: nat): (j: nat)
    requires i <= |s|
    ensures i <= j <= |s|
    ensures AllDigits(s[i..j])
    ensures j == |s| || !IsDigit(s[j])
    decreases |s| - i
  {
    if i < |s| && IsDigit(s[i]) then
      var j := DigitsEnd(s, i + 1);
      assert s[i..j] == [s[i]] + s[i + 1..j];
      j
    else i
  }

  /** The end of the run of non-whitespace characters that starts at i. */
  function WordEnd(s: string, i: nat): (j: nat)
    requires i <= |s|
    ensures i <= j <= |s|
    ensures forall k :: i <= k < j ==> !IsSpace(s[k])
    ensures j == |s| || IsSpace(s[j])
    decreases |s| - i
  {
    if i < |s| && !IsSpace(s[i]) then WordEnd(s, i + 1) else i
  }

  datatype IntScan = IntScan(value: int, end: nat)

  /**
   * A base-10 integer at position i, as the %d conversion and strtol read it:
   * leading whitespace, an optional sign, then at least one digit.
   * Out-of-range values are not modelled.
   */
  function ScanInt(s: string, i: nat): (r: Option<IntScan>)
    requires i <= |s|
    ensures r.Some? ==> i < r.value.end <= |s|
  {
    var j := SkipSpaces(s, i);
    var signed := j < |s| && (s[j] == '-' || s[j] == '+');
    var k := if signed then j + 1 else j;
    var e := DigitsEnd(s, k);
    if e == k then None
    else
      var magnitude := DecimalValue(s[k..e]);
      Some(IntScan(if signed && s[j] == '-' then -(magnitude as int) else magnitude, e))
  }

  /** A sscanf format directive. */
  datatype Directive =
    | Text(w: string)   // a run of ordinary characters, matched exactly
    | Space             // a whitespace character: skips any amount of whitespace
    | IntConv           // %d
    | StrConv           // %s
    | CharsRead         // %n

  datatype ScanResult = ScanResult(ints: seq<int>, strs: seq<string>, charsRead: Option<nat>) {
    /** The value sscanf returns: the number of conversions stored (%n does not count). */
    function Count(): nat { |ints| + |strs| }
  }

  /** sscanf: the directives of fmt applied to s from position i on. */
  function Scan(fmt: seq<Directive>, s: string, i: nat): (r: ScanResult)
    requires i <= |s|
    ensures r.Count() <= |fmt|
    ensures r.charsRead.Some? ==> i <= r.charsRead.value <= |s|
  {
    ScanFrom(fmt, 0, s, i)
  }

  /** The directives of fmt from the d-th on, applied from position i on; scanning stops at the first failure. */
  function ScanFrom(fmt: seq<Directive>, d: nat, s: string, i: nat): (r: ScanResult)
    requires d <= |fmt| && i <= |s|
    ensures r.Count() <= |fmt| - d
    ensures r.charsRead.Some? ==> i <= r.charsRead.value <= |s|
    decreases |fmt| - d
  {
    if d == |fmt| then ScanResult([], [], None)
    else
      match fmt[d]
      case Text(w) =>
        if i + |w| <= |s| && s[i..i + |w|] == w then ScanFrom(fmt, d + 1, s, i + |w|) else ScanResult([], [], None)
      case Space => ScanFrom(fmt, d + 1, s, SkipSpaces(s, i))
      case IntConv =>
        (match ScanInt(s, i)
         case None => ScanResult([], [], None)
         case Some(n) =>
           var rest := ScanFrom(fmt, d + 1, s, n.end);
           rest.(ints := [n.value] + rest.ints))
      case StrConv =>
        var j := SkipSpaces(s, i);
        var e := WordEnd(s, j);
        if e == j then ScanResult([], [], None)
        else
          var rest := ScanFrom(fmt, d + 1, s, e);
          rest.(strs := [s[j..e]] + rest.strs)
      case CharsRead =>
        var rest := ScanFrom(fmt, d + 1, s, i);
        rest.(charsRead := Some(i))
  }

  /** An ordinary run that is present is stepped over. */
  lemma ScanText(fmt: seq<Directive>, d: nat, w: string, s: string, i: nat)
    requires d < |fmt| && fmt[d] == Text(w)
    requires i + |w| <= |s| && s[i..i + |w|] == w
    ensures ScanFrom(fmt, d, s, i) == ScanFrom(fmt, d + 1, s, i + |w|)
  {
  }

  /** An ordinary character that is present is stepped over. */
  lemma ScanChar(fmt: seq<Directive>, d: nat, ch: char, s: string, i: nat)
    requires d < |fmt| && fmt[d] == Text([ch])
    requires i < |s| && s[i] == ch
    ensures ScanFrom(fmt, d, s, i) == ScanFrom(fmt, d + 1, s, i + 1)
  {
    assert s[i..i + 1] == [ch];
  }

  /** A whitespace directive skips every space from i on. */
  lemma ScanSpace(fmt: seq<Directive>, d: nat, s: string, i: nat)
    requires d < |fmt| && fmt[d] == Space && i <= |s|
    ensures ScanFrom(fmt, d, s, i) == ScanFrom(fmt, d + 1, s, SkipSpaces(s, i))
  {
  }

  /** A %d conversion that succeeds stores its value and carries on after the digits. */
  lemma ScanIntConv(fmt: seq<Directive>, d: nat, s: string, i: nat, v: int, e: nat)
    requires d < |fmt| && fmt[d] == IntConv
    requires i <= |s| && ScanInt(s, i) == Some(IntScan(v, e))
    ensures ScanFrom(fmt, d, s, i) == var r := ScanFrom(fmt, d + 1, s, e); r.(ints := [v] + r.ints)
  {
  }

  /** A %d conversion where no number can be read ends the scan with nothing stored. */
  lemma ScanIntConvFails(fmt: seq<Directive>, d: nat, s: string, i: nat)
    requires d < |fmt| && fmt[d] == IntConv
    requires i <= |s| && ScanInt(s, i).None?
    ensures ScanFrom(fmt, d, s, i) == ScanResult([], [], None)
  {
  }

  /** %n records where scanning stands. */
  lemma ScanCharsRead(fmt: seq<Directive>, d: nat, s: string, i: nat)
    requires d < |fmt| && fmt[d] == CharsRead && i <= |s|
    ensures ScanFrom(fmt, d, s, i) == ScanFrom(fmt, d + 1, s, i).(charsRead := Some(i))
  {
  }

  /** A number printed in decimal and followed by a non-digit is read back by %d and strtol. */
  lemma ScanIntOfString(v: int, s: string, i: nat)
    requires i + |IntToString(v)| <= |s| && s[i..i + |IntToString(v)|] == IntToString(v)
    requires i + |IntToString(v)| == |s| || !IsDigit(s[i + |IntToString(v)|])
    ensures ScanInt(s, i) == Some(IntScan(v, i + |IntToString(v)|))
  {
    var w := IntToString(v);
    var e := i + |w|;
    assert s[i] == w[0];
    assert SkipSpaces(s, i) == i;
    if v < 0 {
      var n: nat := -v;
      assert w == "-" + NatToString(n);
      NatToStringDigits(n);
      assert s[i + 1..e] == NatToString(n) by {
        assert s[i + 1..e] == s[i..e][1..];
      }
      DigitsEndOfRun(s, i + 1, e);
    } else {
      NatToStringDigits(v);
      assert !(s[i] == '-' || s[i] == '+');
      DigitsEndOfRun(s, i, e);
    }
  }

  lemma {:induction false} DigitsEndOfRun(s: string, k: nat, e: nat)
    requires k <= e <= |s| && AllDigits(s[k..e])
    requires e == |s| || !IsDigit(s[e])
    ensures DigitsEnd(s, k) == e
    decreases e - k
  {
    if k < e {
      assert IsDigit(s[k..e][0]);
      assert s[k + 1..e] == s[k..e][1..];
      DigitsEndOfRun(s, k + 1, e);
    }
  }

  /** One %s: whatever non-whitespace word follows, up to the end of the line. */
  lemma ScanWord(fmt: seq<Directive>, d: nat, s: string, i: nat)
    requires d < |fmt| && fmt[d] == StrConv
    requires i < |s| && forall k :: i <= k < |s| ==> !IsSpace(s[k])
    ensures ScanFrom(fmt, d, s, i) == var r := ScanFrom(fmt, d + 1, s, |s|); r.(strs := [s[i..]] + r.strs)
  {
    assert SkipSpaces(s, i) == i;
    WordEndAll(s, i);
    assert s[i..WordEnd(s, i)] == s[i..];
  }

  lemma {:induction false} WordEndAll(s: string, i: nat)
    requires i <= |s| && forall k :: i <= k < |s| ==> !IsSpace(s[k])
    ensures WordEnd(s, i) == |s|
    decreases |s| - i
  {
    if i < |s| {
      WordEndAll(s, i + 1);
    }
  }

  // ---------------------------------------------------------------------
  // string_to_int

  /** string_to_int: strtol in base 10, with the unread tail; no number gives 0 and the whole string. */
  function StringToInt(str: string): (r: (int, string))
    ensures ScanInt(str, 0).None? ==> r == (0, str)
    ensures ScanInt(str, 0).Some? ==> r.0 == ScanInt(str, 0).value.value && |r.1| < |str|
  {
    match ScanInt(str, 0)
    case None => (0, str)
    case Some(n) => (n.value, str[n.end..])
  }

  /** A printed number, and nothing after it, is read back with an empty tail. */
  lemma StringToIntRoundTrip(v: int)
    ensures StringToInt(IntToString(v)) == (v, "")
  {
    var s := IntToString(v);
    assert s[0..|s|] == s;
    ScanIntOfString(v, s, 0);
  }

  // ---------------------------------------------------------------------
  // The LightSource member pattern

  /** "LightSource[%d].%s" */
  const LightSourceFormat: seq<Directive> := [Text("LightSource["), IntConv, Text("]."), StrConv]

  /** The light index and member name of a "LightSource[i].member" name, when sscanf fills both. */
  function ScanLightSource(s: string): (r: Option<(int, string)>)
    ensures r.Some? ==> |r.value.1| > 0 && forall k :: 0 <= k < |r.value.1| ==> !IsSpace(r.value.1[k])
  {
    var res := Scan(LightSourceFormat, s, 0);
    if res.Count() == 2 && |res.ints| == 1 && |res.strs| == 1 then
      ScanWordsAreWords(LightSourceFormat, 0, s, 0);
      assert res.strs[0] in res.strs;
      Some((res.ints[0], res.strs[0]))
    else None
  }

  /** Every word %s stores is non-empty and free of whitespace. */
  lemma {:induction false} ScanWordsAreWords(fmt: seq<Directive>, d: nat, s: string, i: nat)
    requires d <= |fmt| && i <= |s|
    ensures forall w :: w in ScanFrom(fmt, d, s, i).strs ==> |w| > 0 && forall k :: 0 <= k < |w| ==> !IsSpace(w[k])
    decreases |fmt| - d
  {
    if d < |fmt| {
      match fmt[d]
      case Text(t) =>
        if i + |t| <= |s| && s[i..i + |t|] == t { ScanWordsAreWords(fmt, d + 1, s, i + |t|); }
      case Space => ScanWordsAreWords(fmt, d + 1, s, SkipSpaces(s, i));
      case IntConv =>
        if ScanInt(s, i).Some? {
          ScanWordsAreWords(fmt, d + 1, s, ScanInt(s, i).value.end);
          assert ScanFrom(fmt, d, s, i).strs == ScanFrom(fmt, d + 1, s, ScanInt(s, i).value.end).strs;
        }
      case StrConv =>
        var j := SkipSpaces(s, i);
        var e := WordEnd(s, j);
        if e != j {
          ScanWordsAreWords(fmt, d + 1, s, e);
          var w := s[j..e];
          assert forall k :: 0 <= k < |w| ==> !IsSpace(w[k]) by {
            forall k | 0 <= k < |w| ensures !IsSpace(w[k]) { assert w[k] == s[j + k]; }
          }
          assert ScanFrom(fmt, d, s, i).strs == [w] + ScanFrom(fmt, d + 1, s, e).strs;
        }
      case CharsRead => ScanWordsAreWords(fmt, d + 1, s, i);
    }
  }

  /** The name "LightSource[i].member" is read back as (i, member) for a whitespace-free member. */
  lemma ScanLightSourceRoundTrip(index: int, member: string)
    requires |member| > 0 && forall k :: 0 <= k < |member| ==> !IsSpace(member[k])
    ensures ScanLightSource("LightSource[" + IntToString(index) + "]." + member) == Some((index, member))
  {
    var head := "LightSource[";
    var num := IntToString(index);
    var tail := "]." + member;
    var s := head + num + tail;
    assert s == head + num + "]." + member;
    Slices3(head, num, tail);
    ScanLightSourceBody(s, index, member);
    ScanText(LightSourceFormat, 0, head, s, 0);
  }

  /** After the "LightSource[" text: the number, the "]." text and the member. */
  lemma ScanLightSourceBody(s: string, index: int, member: string)
    requires |member| > 0 && forall k :: 0 <= k < |member| ==> !IsSpace(member[k])
    requires s == "LightSource[" + IntToString(index) + ("]." + member)
    ensures ScanFrom(LightSourceFormat, 1, s, 12) == ScanResult([index], [member], None)
  {
    var head := "LightSource[";
    var num := IntToString(index);
    var tail := "]." + member;
    Slices3(head, num, tail);
    var p := |head| + |num|;
    assert s[p..] == tail;
    assert s[p + 2..] == member by {
      assert s[p + 2..] == s[p..][2..];
    }
    ScanLightSourceTail(s, p + 2);
    ScanText(LightSourceFormat, 2, "].", s, p);
    assert s[p] == tail[0];
    ScanIntOfString(index, s, |head|);
    ScanIntConv(LightSourceFormat, 1, s, |head|, index, p);
  }

  /** The final %s of the pattern takes the rest of a whitespace-free name. */
  lemma ScanLightSourceTail(s: string, q: nat)
    requires q < |s| && forall k :: 0 <= k < |s[q..]| ==> !IsSpace(s[q..][k])
    ensures ScanFrom(LightSourceFormat, 3, s, q) == ScanResult([], [s[q..]], None)
  {
    forall k | q <= k < |s| ensures !IsSpace(s[k]) {
      assert s[k] == s[q..][k - q];
    }
    ScanWord(LightSourceFormat, 3, s, q);
  }

  lemma Slices3(a: string, b: string, c: string)
    ensures (a + b + c)[0..|a|] == a
    ensures (a + b + c)[|a|..|a| + |b|] == b
    ensures (a + b + c)[|a| + |b|..] == c
  {
  }

  // ---------------------------------------------------------------------
  // InternalName structure

  /** Whether the name has a '.' and so a parent other than the root. */
  predicate HasParent(name: string) {
    exists k :: 0 <= k < |name| && name[k] == '.'
  }

  /** The position of the last '.', -1 when there is none. */
  function LastDot(name: string): (k: int)
    ensures -1 <= k < |name|
    ensures k >= 0 ==> name[k] == '.'
    ensures forall j :: k < j < |name| ==> name[j] != '.'
  {
    if name == [] then -1
    else if name[|name| - 1] == '.' then |name| - 1
    else LastDot(name[..|name| - 1])
  }

  /** InternalName::get_basename: the part after the last '.'. */
  function Basename(name: string): string {
    name[LastDot(name) + 1..]
  }

  /** The name of the parent InternalName: the part before the last '.'. */
  function Parent(name: string): string
    requires HasParent(name)
  {
    name[..LastDot(name)]
  }

  lemma ParentBasename(name: string)
    requires HasParent(name)
    ensures Parent(name) + "." + Basename(name) == name
    ensures forall k :: 0 <= k < |Basename(name)| ==> Basename(name)[k] != '.'
  {
    var k :| 0 <= k < |name| && name[k] == '.';
    assert LastDot(name) >= 0;
    assert name == name[..LastDot(name)] + [name[LastDot(name)]] + name[LastDot(name) + 1..];
  }
}
