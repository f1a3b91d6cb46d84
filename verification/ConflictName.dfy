/**
 The names under which the merge view shows files and directories that exist on
 several devices, and how they are read back.
 */
module ConflictName {
  import opened Bytes

  const FILE_SUFFIX := "_conflict_dev"
  const DIR_SUFFIX := "_remote_directory"

  datatype Kind = Plain | MangledFile | MangledDir

  // ----- decimal numbers -----

  predicate IsDigit(c: char) {
    '0' <= c <= '9'
  }

  function Digit(d: nat): (c: char)
    requires d < 10
    ensures IsDigit(c) && DigitValue(c) == d
  {
    '0' + d as char
  }

  function DigitValue(c: char): int {
    c as int - '0' as int
  }

  /** %u */
  function Decimal(n: nat): (s: string)
    ensures |s| > 0 && forall k :: 0 <= k < |s| ==> IsDigit(s[k])
  {
    if n < 10 then [Digit(n)] else Decimal(n / 10) + [Digit(n % 10)]
  }

  function ParseDecimal(s: string): int {
    if s == [] then 0 else ParseDecimal(s[..|s| - 1]) * 10 + DigitValue(s[|s| - 1])
  }

  lemma {:induction false} ParseOfDecimal(n: nat)
    ensures ParseDecimal(Decimal(n)) == n
  {
    if n >= 10 {
      ParseOfDecimal(n / 10);
      var s := Decimal(n);
      assert s[..|s| - 1] == Decimal(n / 10);
    }
  }

  lemma DecimalStep(n: nat)
    ensures |Decimal(n)| == if n < 10 then 1 else |Decimal(n / 10)| + 1
  {
  }

  lemma DecimalLength(n: nat)
    ensures |Decimal(n)| <= 4 <==> n < 10000
  {
    var a := n / 10;
    var b := a / 10;
    var c := b / 10;
    DecimalStep(n);
    DecimalStep(a);
    DecimalStep(b);
    DecimalStep(c);
  }

  // ----- the parts of a name -----

  /** The last dot before `i`, |name| when there is none; `stop` makes a slash end the search. */
  function DotBefore(name: string, i: nat, stop: bool): (p: nat)
    requires i <= |name|
    ensures p <= |name| && (p < |name| ==> p < i && name[p] == '.')
    ensures !stop || p < |name| ==> forall k :: 0 <= k < i && (p < |name| ==> p < k) ==> name[k] != '.'
  {
    if i == 0 || (stop && name[i - 1] == '/') then |name|
    else if name[i - 1] == '.' then i - 1
    else DotBefore(name, i - 1, stop)
  }

  function DotPos(name: string): (p: nat)
    ensures p <= |name|
  {
    DotBefore(name, |name|, false)
  }

  function Stem(name: string): string {
    name[..DotPos(name)]
  }

  /** The extension with its dot; empty when the name has no dot. */
  function Extension(name: string): string {
    name[DotPos(name)..]
  }

  predicate NoSlash(name: string) {
    forall k :: 0 <= k < |name| ==> name[k] != '/'
  }

  lemma {:induction false} NoSlashSameDot(name: string, i: nat)
    requires NoSlash(name) && i <= |name|
    ensures DotBefore(name, i, true) == DotBefore(name, i, false)
  {
    if i > 0 {
      NoSlashSameDot(name, i - 1);
    }
  }

  predicate EndsWith(s: string, suffix: string) {
    |s| >= |suffix| && s[|s| - |suffix|..] == suffix
  }

  /** The start of the digits at the end of `s`. */
  function DigitsFrom(s: string): (p: nat)
    ensures p <= |s| && (forall k :: p <= k < |s| ==> IsDigit(s[k])) && (p > 0 ==> !IsDigit(s[p - 1]))
  {
    if s == [] || !IsDigit(s[|s| - 1]) then |s| else DigitsFrom(s[..|s| - 1])
  }

  // ----- printing and reading -----

  function MangleAt(name: string, p: nat, dev: nat): string
    requires p <= |name|
  {
    name[..p] + FILE_SUFFIX + Decimal(dev) + name[p..]
  }

  /** The name of a file of device `dev` whose own name is taken. */
  function MangleFile(name: string, dev: nat): string {
    MangleAt(name, DotPos(name), dev)
  }

  function MangleDir(name: string): string {
    name + DIR_SUFFIX
  }

  /** What check_filename makes of a name. */
  function Classify(name: string): Kind {
    var stem := Stem(name);
    if EndsWith(name, DIR_SUFFIX) then MangledDir
    else if EndsWith(stem[..DigitsFrom(stem)], FILE_SUFFIX) then MangledFile
    else Plain
  }

  /** What conf_name_trans_reg makes of a name that is a mangled file name. */
  function UnmangleFile(name: string): (string, int)
    requires var stem := Stem(name); EndsWith(stem[..DigitsFrom(stem)], FILE_SUFFIX)
  {
    var stem := Stem(name);
    var p := DigitsFrom(stem);
    (stem[..p - |FILE_SUFFIX|] + Extension(name), Signed32(ParseDecimal(stem[p..])))
  }

  /** conf_name_trans_dir */
  function UnmangleDir(name: string): string
    requires |name| >= |DIR_SUFFIX|
  {
    name[..|name| - |DIR_SUFFIX|]
  }

  // ----- the code -----

  /** rename_conflicting_file */
  method RenameConflictingFile(name: string, dev: nat) returns (r: string)
    ensures r == MangleAt(name, DotBefore(name, |name|, true), dev)
  {
    var i: int := |name| - 1;
    var dotPos: int := -1;
    while i >= 0
      invariant -1 <= i < |name| && dotPos == -1
      invariant DotBefore(name, |name|, true) == DotBefore(name, i + 1, true)
    {
      if name[i] == '/' {
        break;
      }
      if name[i] == '.' {
        dotPos := i;
        break;
      }
      i := i - 1;
    }
    if dotPos == -1 {
      assert DotBefore(name, |name|, true) == |name|;
      return name + FILE_SUFFIX + Decimal(dev);
    }
    var buffer := "";
    i := 0;
    while i < |name| - dotPos
      invariant 0 <= i <= |name| - dotPos && buffer == name[dotPos..dotPos + i]
    {
      buffer := buffer + [name[i + dotPos]];
      i := i + 1;
    }
    r := name[..dotPos] + FILE_SUFFIX + Decimal(dev) + buffer;
  }

  /** The backward search for a dot, as check_filename and conf_name_trans_reg both do it. */
  method FindDot(name: string) returns (dotPos: nat)
    ensures dotPos == DotPos(name)
  {
    var i: int := |name| - 1;
    while i >= 0
      invariant -1 <= i < |name| && DotPos(name) == DotBefore(name, i + 1, false)
    {
      if name[i] == '.' {
        return i;
      }
      i := i - 1;
    }
    dotPos := |name|;
  }

  /** The backward count of digits in front of `end`. */
  method CountDigits(name: string, end: nat) returns (numLen: nat)
    requires end <= |name|
    ensures numLen <= end && DigitsFrom(name[..end]) == end - numLen
  {
    numLen := 0;
    var i: int := end - 1;
    while i >= 0
      invariant -1 <= i < end && numLen == end - 1 - i
      invariant DigitsFrom(name[..end]) == DigitsFrom(name[..i + 1])
    {
      assert name[..i + 1][..i] == name[..i];
      if !IsDigit(name[i]) {
        break;
      }
      numLen := numLen + 1;
      i := i - 1;
    }
    if i < 0 {
      assert name[..0] == "";
    }
  }

  /** check_filename; a comparison that would start before the name counts as no match. */
  method CheckFilename(name: string) returns (kind: Kind)
    ensures kind == Classify(name)
  {
    if |name| >= |DIR_SUFFIX| {
      if name[|name| - |DIR_SUFFIX|..] == DIR_SUFFIX {
        return MangledDir;
      }
    }
    if |name| >= |FILE_SUFFIX| {
      var dotPos := FindDot(name);
      var numLen := CountDigits(name, dotPos);
      var start: int := dotPos - numLen - |FILE_SUFFIX|;
      ghost var base := Stem(name)[..dotPos - numLen];
      assert base == name[..dotPos - numLen];
      if start >= 0 && name[start..start + |FILE_SUFFIX|] == FILE_SUFFIX {
        assert base[start..] == name[start..start + |FILE_SUFFIX|];
        return MangledFile;
      }
      assert start >= 0 ==> base[start..] == name[start..start + |FILE_SUFFIX|];
    }
    kind := Plain;
  }

  /** conf_name_trans_reg */
  method ConfNameTransReg(name: string) returns (original: string, dev: int)
    requires var stem := Stem(name); EndsWith(stem[..DigitsFrom(stem)], FILE_SUFFIX)
    ensures (original, dev) == UnmangleFile(name)
  {
    var dotPos := FindDot(name);
    var numLen := CountDigits(name, dotPos);
    dev := ReadDigits(name, dotPos - numLen, dotPos);
    assert name[dotPos - numLen..dotPos] == Stem(name)[dotPos - numLen..];
    var start := dotPos - numLen - |FILE_SUFFIX|;
    original := name[..start] + name[dotPos..];
    assert Stem(name)[..start] == name[..start];
  }

  /** Its loop over the digits, in a 32-bit int */
  method ReadDigits(name: string, from: nat, to: nat) returns (dev: int)
    requires from <= to <= |name|
    ensures dev == Signed32(ParseDecimal(name[from..to]))
  {
    dev := 0;
    ghost var digits := name[from..to];
    for i := 0 to to - from
      invariant dev == Signed32(ParseDecimal(digits[..i]))
    {
      assert digits[..i + 1][..i] == digits[..i];
      ParseStep(ParseDecimal(digits[..i]), DigitValue(digits[i]));
      dev := Signed32(dev * 10 + DigitValue(name[from + i]));
    }
    assert digits[..to - from] == digits;
  }

  /** Wrapping after each digit is the same as wrapping at the end. */
  lemma ParseStep(v: int, d: int)
    ensures Signed32(Signed32(v) * 10 + d) == Signed32(v * 10 + d)
  {
    var q := (v - Signed32(v)) / TWO_32;
    assert v == Signed32(v) + q * TWO_32;
    assert v * 10 + d == Signed32(v) * 10 + d + (q * 10) * TWO_32;
    ModShift(Signed32(v) * 10 + d, q * 10);
  }

  lemma ModShift(x: int, k: int)
    ensures (x + k * TWO_32) % TWO_32 == x % TWO_32
  {
  }

  // ----- round trips -----

  lemma DotPosUnique(name: string, p: nat)
    requires p <= |name| && (p < |name| ==> name[p] == '.')
    requires forall k :: 0 <= k < |name| && (p < |name| ==> p < k) ==> name[k] != '.'
    ensures DotPos(name) == p
  {
    var q := DotPos(name);
    assert q < |name| ==> name[q] == '.';
    assert p < |name| ==> name[p] == '.';
  }

  lemma {:induction false} DigitsFromUnique(s: string, p: nat)
    requires p <= |s| && (forall k :: p <= k < |s| ==> IsDigit(s[k])) && (p > 0 ==> !IsDigit(s[p - 1]))
    ensures DigitsFrom(s) == p
  {
    if p < |s| {
      DigitsFromUnique(s[..|s| - 1], p);
    }
  }

  /** Mangling a file name only lengthens its stem. */
  lemma MangledParts(name: string, dev: nat)
    ensures var m := MangleFile(name, dev);
            && Stem(m) == Stem(name) + FILE_SUFFIX + Decimal(dev)
            && Extension(m) == Extension(name)
            && DigitsFrom(Stem(m)) == |Stem(name)| + |FILE_SUFFIX|
  {
    var m, stem, ext := MangleFile(name, dev), Stem(name), Extension(name);
    var front := stem + FILE_SUFFIX + Decimal(dev);
    assert m == front + ext;
    forall k | 0 <= k < |m| && (|front| < |m| ==> |front| < k) ensures m[k] != '.' {
      if k >= |front| {
        assert m[k] == name[k - |front| + DotPos(name)];
      } else if k < |stem| {
        assert m[k] == name[k];
      } else if k >= |stem| + |FILE_SUFFIX| {
        assert m[k] == Decimal(dev)[k - |stem| - |FILE_SUFFIX|];
        assert IsDigit(m[k]);
      } else {
        assert m[k] == FILE_SUFFIX[k - |stem|];
      }
    }
    DotPosUnique(m, |front|);
    assert m[..|front|] == front && m[|front|..] == ext;
    forall k | |stem| + |FILE_SUFFIX| <= k < |front| ensures IsDigit(front[k]) {
      assert front[k] == Decimal(dev)[k - |stem| - |FILE_SUFFIX|];
    }
    assert front[|stem| + |FILE_SUFFIX| - 1] == 'v';
    DigitsFromUnique(front, |stem| + |FILE_SUFFIX|);
  }

  lemma EndsWithTail(front: string, ext: string, suffix: string)
    requires |ext| >= |suffix|
    ensures EndsWith(front + ext, suffix) <==> EndsWith(ext, suffix)
  {
    var m := front + ext;
    assert m[|m| - |suffix|..] == ext[|ext| - |suffix|..];
  }

  lemma EndsDifferently(m: string, suffix: string, j: nat)
    requires 0 < j <= |suffix| && j <= |m| && m[|m| - j] != suffix[|suffix| - j]
    ensures !EndsWith(m, suffix)
  {
    if |m| >= |suffix| {
      assert m[|m| - |suffix|..][|suffix| - j] == m[|m| - j];
    }
  }

  /** A mangled file name looks like a mangled directory exactly when its extension does. */
  lemma MangledEnding(name: string, dev: nat)
    ensures EndsWith(MangleFile(name, dev), DIR_SUFFIX) <==> EndsWith(Extension(name), DIR_SUFFIX)
  {
    var ext := Extension(name);
    var front := Stem(name) + FILE_SUFFIX + Decimal(dev);
    var m := front + ext;
    assert MangleFile(name, dev) == m;
    if |ext| >= |DIR_SUFFIX| {
      EndsWithTail(front, ext, DIR_SUFFIX);
    } else if ext == "" {
      assert m[|m| - 1] == Decimal(dev)[|Decimal(dev)| - 1];
      assert IsDigit(m[|m| - 1]);
      EndsDifferently(m, DIR_SUFFIX, 1);
    } else {
      assert m[|m| - |ext|] == '.';
      EndsDifferently(m, DIR_SUFFIX, |ext|);
    }
  }

  /**
   A mangled file name reads back as the original name and, for every device id
   that an int can hold, as the device; it is never mistaken for a plain name, and
   is classified as a file exactly when the extension is not a directory mark.
   */
  lemma MangleFileRoundTrip(name: string, dev: nat)
    ensures var m := MangleFile(name, dev);
            && EndsWith(Stem(m)[..DigitsFrom(Stem(m))], FILE_SUFFIX)
            && UnmangleFile(m) == (name, Signed32(dev))
            && (dev < TWO_32 ==> (Signed32(dev) == dev <==> dev < TWO_31))
            && Classify(m) != Plain
            && (Classify(m) == MangledFile <==> !EndsWith(Extension(name), DIR_SUFFIX))
  {
    var m := MangleFile(name, dev);
    ReadBack(name, dev, m);
    MangledEnding(name, dev);
    IntHolds(dev);
  }

  lemma IntHolds(dev: nat)
    ensures dev < TWO_32 ==> (Signed32(dev) == dev <==> dev < TWO_31)
  {
  }

  lemma ReadBack(name: string, dev: nat, m: string)
    requires m == MangleFile(name, dev)
    ensures EndsWith(Stem(m)[..DigitsFrom(Stem(m))], FILE_SUFFIX) && UnmangleFile(m) == (name, Signed32(dev))
  {
    MangledStem(name, dev, m);
    UnmangleParts(m, Stem(name), dev);
    assert Stem(name) + Extension(name) == name;
  }

  /** The parts that the reader cuts a mangled file name into */
  lemma UnmangleParts(m: string, front: string, dev: nat)
    requires var stem, p := Stem(m), DigitsFrom(Stem(m));
             && EndsWith(stem[..p], FILE_SUFFIX) && stem[..p - |FILE_SUFFIX|] == front && stem[p..] == Decimal(dev)
    ensures UnmangleFile(m) == (front + Extension(m), Signed32(dev))
  {
    ParseOfDecimal(dev);
  }

  lemma MangledStem(name: string, dev: nat, m: string)
    requires m == MangleFile(name, dev)
    ensures var stem, p := Stem(m), DigitsFrom(Stem(m));
            && EndsWith(stem[..p], FILE_SUFFIX) && stem[..p - |FILE_SUFFIX|] == Stem(name)
            && stem[p..] == Decimal(dev) && Extension(m) == Extension(name)
  {
    MangledParts(name, dev);
    var stem := Stem(name);
    var p := |stem| + |FILE_SUFFIX|;
    assert Stem(m)[..p] == stem + FILE_SUFFIX;
    assert (stem + FILE_SUFFIX)[|stem|..] == FILE_SUFFIX;
  }

  /** For plain names the round trip is complete: class, name and device. */
  lemma PlainRoundTrip(name: string, dev: nat)
    requires Classify(name) == Plain && NoSlash(name) && dev < TWO_31
    ensures Classify(MangleFile(name, dev)) == MangledFile && UnmangleFile(MangleFile(name, dev)) == (name, dev)
    ensures MangleAt(name, DotBefore(name, |name|, true), dev) == MangleFile(name, dev)
    ensures Classify(MangleDir(name)) == MangledDir && UnmangleDir(MangleDir(name)) == name
  {
    MangleFileRoundTrip(name, dev);
    NoSlashSameDot(name, |name|);
    PlainExtension(name);
    assert MangleDir(name)[|name|..] == DIR_SUFFIX;
  }

  lemma PlainExtension(name: string)
    requires Classify(name) == Plain
    ensures !EndsWith(Extension(name), DIR_SUFFIX)
  {
    if |Extension(name)| >= |DIR_SUFFIX| {
      EndsWithTail(Stem(name), Extension(name), DIR_SUFFIX);
      assert name == Stem(name) + Extension(name);
    }
  }

  /** Different files get different names. */
  lemma MangleInjective(a: string, d: nat, b: string, e: nat)
    requires MangleFile(a, d) == MangleFile(b, e)
    ensures a == b && d == e
  {
    MangleFileRoundTrip(a, d);
    MangleFileRoundTrip(b, e);
    MangledParts(a, d);
    MangledParts(b, e);
    var m := MangleFile(a, d);
    var p := DigitsFrom(Stem(m));
    assert Stem(m)[p..] == Decimal(d) && Stem(m)[p..] == Decimal(e);
    ParseOfDecimal(d);
    ParseOfDecimal(e);
  }

  /** The check made before mangling a file: the format string and two more characters must fit. */
  predicate FileGuard(name: string) {
    |FILE_SUFFIX| + 2 + 2 <= NAME_MAX - |name|
  }

  predicate DirGuard(name: string) {
    |DIR_SUFFIX| <= NAME_MAX - |name|
  }

  lemma MangledLength(name: string, dev: nat)
    ensures |MangleFile(name, dev)| == |name| + |FILE_SUFFIX| + |Decimal(dev)|
  {
  }

  /** The check leaves room for the mangled name exactly for device ids below 10000. */
  lemma GuardFits(dev: nat)
    ensures (forall name :: FileGuard(name) ==> |MangleFile(name, dev)| <= NAME_MAX) <==> dev < 10000
  {
    DecimalLength(dev);
    forall name | FileGuard(name) ensures |MangleFile(name, dev)| == |name| + 13 + |Decimal(dev)| {
      MangledLength(name, dev);
    }
    if dev >= 10000 {
      var longest := seq(238, _ => 'a');
      assert FileGuard(longest);
      MangledLength(longest, dev);
      assert |MangleFile(longest, dev)| > NAME_MAX;
    }
  }

  /** The suffixes, on examples: the device goes in front of the extension. */
  lemma ConflictExamples()
    ensures MangleFile("a", 12) == "a_conflict_dev12" && MangleDir("a") == "a_remote_directory"
  {
    DecimalExamples();
    assert DotPos("a") == 1;
  }

  lemma DottedConflict()
    ensures MangleFile("a.b", 3) == "a_conflict_dev3.b"
  {
    DecimalExamples();
    DottedExample(Decimal(3));
  }

  lemma DecimalExamples()
    ensures Decimal(3) == "3" && Decimal(12) == "12"
  {
    assert Decimal(1) == "1";
  }

  lemma DottedExample(digits: string)
    ensures DotPos("a.b") == 1 && "a.b"[..1] + FILE_SUFFIX + digits + "a.b"[1..] == "a" + FILE_SUFFIX + digits + ".b"
  {
  }
}
