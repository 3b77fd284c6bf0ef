/** Where a capture is written: the file name built from the prefix, the image
    name, its size and the suffix; the extension chosen by format; the
    sanitising that replaces characters the platform forbids in file names;
    the single `_1` retry on a name clash; and the directory a batch writes
    into. */
module Naming {
  import opened Wrappers
  import opened Configs
  import Strings

  // ---------------------------------------------------------------------
  // Decimal rendering of integers (string concatenation of an `int`)
  // ---------------------------------------------------------------------

  predicate IsDigit(c: char) { '0' <= c <= '9' }

  function DigitChar(d: nat): (c: char)
    requires d < 10
    ensures IsDigit(c)
  {
    "0123456789"[d]
  }

  /** The decimal digits of `n`, most significant first, without leading zeros. */
  function NatToString(n: nat): (s: string)
    ensures |s| > 0 && (forall i :: 0 <= i < |s| ==> IsDigit(s[i]))
    ensures s[0] == '0' <==> n == 0
  {
    if n < 10 then [DigitChar(n)] else NatToString(n / 10) + [DigitChar(n % 10)]
  }

  /** An `int` as the language's default conversion writes it: a leading `-`
      for negative values, then the decimal digits. */
  function IntToString(n: int): (s: string)
    ensures |s| > 0
    ensures (s[0] == '-') <==> n < 0
    ensures forall i :: 0 < i < |s| ==> IsDigit(s[i])
    ensures IsDigit(s[0]) || s[0] == '-'
    ensures n >= 0 && |s| > 1 ==> s[0] != '0'
    ensures n < 0 ==> |s| > 1 && s[1] != '0'
  {
    if n < 0 then "-" + NatToString(-n) else NatToString(n)
  }

  function DigitValue(c: char): (d: nat)
    requires IsDigit(c)
    ensures d < 10
  {
    c as int - '0' as int
  }

  /** Reads a string of decimal digits back as a number. */
  function ParseNat(s: string): (n: nat)
    requires forall i :: 0 <= i < |s| ==> IsDigit(s[i])
  {
    if s == [] then 0 else 10 * ParseNat(s[..|s| - 1]) + DigitValue(s[|s| - 1])
  }

  function ParseInt(s: string): (n: int)
    requires |s| > 0 && (IsDigit(s[0]) || s[0] == '-')
    requires forall i :: 0 < i < |s| ==> IsDigit(s[i])
    ensures n < 0 ==> s[0] == '-'
  {
    if s[0] == '-' then -(ParseNat(s[1..]) as int) else ParseNat(s)
  }

  lemma {:induction false} NatToStringRoundTrip(n: nat)
    ensures ParseNat(NatToString(n)) == n
  {
    if n >= 10 {
      var s := NatToString(n);
      assert s[..|s| - 1] == NatToString(n / 10);
      NatToStringRoundTrip(n / 10);
    }
  }

  /** The rendering loses nothing: each `int` is read back from its string, so
      different sizes give different names. */
  lemma IntToStringRoundTrip(n: int)
    ensures ParseInt(IntToString(n)) == n
  {
    if n < 0 {
      var digits := NatToString(-n);
      var s := "-" + digits;
      assert IntToString(n) == s;
      assert s[0] == '-' && s[1..] == digits;
      NatToStringRoundTrip(-n);
      assert ParseInt(s) == -(ParseNat(digits) as int);
    } else {
      NatToStringRoundTrip(n);
    }
  }

  // ---------------------------------------------------------------------
  // Extension and file name
  // ---------------------------------------------------------------------

  /** The extension the format switch selects; EXR falls to the `default`
      branch, which throws an out-of-range error. */
  function Extension(format: Format): (r: Result<string>)
    ensures r.Err? <==> format == EXR
    ensures r.Err? ==> r.error == ArgumentOutOfRange
    ensures format == PNG ==> r == Ok(".png")
    ensures format == JPG ==> r == Ok(".jpg")
  {
    match format
    case PNG => Ok(".png")
    case JPG => Ok(".jpg")
    case EXR => Err(ArgumentOutOfRange)
  }

  /** The base name before the extension: prefix, image name, `-`, width,
      `x`, height, suffix. */
  function FileName(prefix: string, name: string, width: int, height: int, suffix: string): (r: string)
    ensures |r| > |prefix| + |name| + 1 + |suffix|
    ensures r[..|prefix| + |name| + 1] == prefix + name + "-"
    ensures r[|r| - |suffix|..] == suffix
  {
    prefix + name + "-" + IntToString(width) + "x" + IntToString(height) + suffix
  }

  lemma FirstMark(a: string, b: string, c: char)
    requires c !in a
    ensures Strings.IndexOf(a + [c] + b, c) == |a|
  {
    var s := a + [c] + b;
    assert s[|a|] == c;
    assert forall j :: 0 <= j < |a| ==> s[j] == a[j];
  }

  /** A separator that occurs in neither left part splits equal strings into
      equal parts. */
  lemma SplitAtMark(a1: string, b1: string, a2: string, b2: string, c: char)
    requires c !in a1 && c !in a2
    requires a1 + [c] + b1 == a2 + [c] + b2
    ensures a1 == a2 && b1 == b2
  {
    var s := a1 + [c] + b1;
    FirstMark(a1, b1, c);
    FirstMark(a2, b2, c);
    assert a1 == s[..|a1|] == a2;
    assert b1 == s[|a1| + 1..] == b2;
  }

  lemma NoMarkInInt(n: int)
    ensures 'x' !in IntToString(n)
  {
    var s := IntToString(n);
    forall i | 0 <= i < |s| ensures s[i] != 'x' {
      if i > 0 { assert IsDigit(s[i]); }
    }
  }

  lemma MiddlePart(head: string, m1: string, m2: string, tail: string)
    requires head + m1 + tail == head + m2 + tail
    ensures m1 == m2
  {
    var r := head + m1 + tail;
    assert m1 == r[|head|..|r| - |tail|];
  }

  /** Equal file names with the same prefix, name and suffix have equal size
      parts. */
  lemma FileNameSizePart(prefix: string, name: string, suffix: string, w1: int, h1: int, w2: int, h2: int)
    requires FileName(prefix, name, w1, h1, suffix) == FileName(prefix, name, w2, h2, suffix)
    ensures IntToString(w1) + "x" + IntToString(h1) == IntToString(w2) + "x" + IntToString(h2)
  {
    var head := prefix + name + "-";
    var a1, b1, a2, b2 := IntToString(w1), IntToString(h1), IntToString(w2), IntToString(h2);
    assert FileName(prefix, name, w1, h1, suffix) == head + (a1 + "x" + b1) + suffix;
    assert FileName(prefix, name, w2, h2, suffix) == head + (a2 + "x" + b2) + suffix;
    MiddlePart(head, a1 + "x" + b1, a2 + "x" + b2, suffix);
  }

  /** Images that differ in width or height get different file names, for the
      same prefix, name and suffix. */
  lemma FileNameInjective(prefix: string, name: string, suffix: string, w1: int, h1: int, w2: int, h2: int)
    requires FileName(prefix, name, w1, h1, suffix) == FileName(prefix, name, w2, h2, suffix)
    ensures w1 == w2 && h1 == h2
  {
    FileNameSizePart(prefix, name, suffix, w1, h1, w2, h2);
    NoMarkInInt(w1);
    NoMarkInInt(w2);
    SplitAtMark(IntToString(w1), IntToString(h1), IntToString(w2), IntToString(h2), 'x');
    IntToStringRoundTrip(w1);
    IntToStringRoundTrip(w2);
    IntToStringRoundTrip(h1);
    IntToStringRoundTrip(h2);
  }

  // ---------------------------------------------------------------------
  // Sanitising: Regex.Replace(name, "([inv]*\.+$)|([inv]+)", "_")
  // ---------------------------------------------------------------------

  predicate NoneIn(s: string, cs: set<char>)
  {
    forall i :: 0 <= i < |s| ==> s[i] !in cs
  }

  predicate AllDots(t: string)
  {
    forall i :: 0 <= i < |t| ==> t[i] == '.'
  }

  predicate EndsInDot(s: string)
  {
    |s| > 0 && s[|s| - 1] == '.'
  }

  /** `t` belongs to the language of the first alternative, `[inv]*\.+` run up
      to the end of the string: some invalid characters, then one or more dots
      that reach the end. */
  predicate DotTail(t: string, inv: set<char>)
  {
    |t| > 0 && (AllDots(t) || (t[0] in inv && DotTail(t[1..], inv)))
  }

  /** The length of the greedy match of the second alternative, `[inv]+`, at
      the start of `t` (0 when it does not match). */
  function RunLength(t: string, inv: set<char>): (n: nat)
    ensures n <= |t|
    ensures forall i :: 0 <= i < n ==> t[i] in inv
    ensures n < |t| ==> t[n] !in inv
  {
    if t == [] || t[0] !in inv then 0 else 1 + RunLength(t[1..], inv)
  }

  /** The regular-expression replacement as a left-to-right scan. At each
      position the first alternative is tried first: when the rest of the
      string is invalid characters followed by dots that reach the end, all of
      it becomes one `_`. Otherwise a maximal run of invalid characters becomes
      one `_`. Otherwise the character is kept and the scan moves on. */
  function MakeValidFileName(s: string, inv: set<char>): (r: string)
    ensures |r| <= |s|
    ensures s != [] ==> r != []
    ensures '_' !in inv ==> NoneIn(r, inv)
    ensures !EndsInDot(r)
    ensures EndsInDot(s) ==> r[|r| - 1] == '_'
    decreases |s|
  {
    if s == [] then []
    else if DotTail(s, inv) then "_"
    else if s[0] in inv then "_" + MakeValidFileName(s[RunLength(s, inv)..], inv)
    else
      assert |s| == 1 && s[0] == '.' ==> AllDots(s);
      [s[0]] + MakeValidFileName(s[1..], inv)
  }

  /** A reference definition of "each maximal run of invalid characters
      becomes one `_`", one character at a time: an invalid character writes
      `_` unless the one before it was invalid too. */
  function Collapse(s: string, inv: set<char>, afterInvalid: bool): (r: string)
  {
    if s == [] then []
    else if s[0] in inv then (if afterInvalid then "" else "_") + Collapse(s[1..], inv, true)
    else [s[0]] + Collapse(s[1..], inv, false)
  }

  lemma {:induction false} DotTailEndsInDot(t: string, inv: set<char>)
    requires DotTail(t, inv)
    ensures EndsInDot(t)
  {
    if !AllDots(t) {
      DotTailEndsInDot(t[1..], inv);
    }
  }

  lemma {:induction false} CollapseSkipsRun(t: string, inv: set<char>, j: nat)
    requires j <= |t|
    requires forall i :: 0 <= i < j ==> t[i] in inv
    ensures Collapse(t, inv, true) == Collapse(t[j..], inv, true)
  {
    if j > 0 {
      CollapseSkipsRun(t[1..], inv, j - 1);
      assert t[1..][j - 1..] == t[j..];
    }
  }

  /** A dot tail stays a dot tail when its first character is dropped. */
  lemma DotTailRest(x: string, inv: set<char>)
    requires DotTail(x, inv) && |x| > 1
    ensures DotTail(x[1..], inv)
  {
    if AllDots(x) {
      assert forall i :: 0 <= i < |x| - 1 ==> x[1..][i] == x[i + 1];
    }
  }

  /** If `a + t` is a dot tail then so is `t` preceded by the last character of
      `a`. */
  lemma {:induction false} DotTailFromLast(a: string, t: string, inv: set<char>)
    requires a != [] && |t| > 0
    requires DotTail(a + t, inv)
    ensures DotTail([a[|a| - 1]] + t, inv)
    decreases |a|
  {
    if |a| > 1 {
      DotTailRest(a + t, inv);
      assert (a + t)[1..] == a[1..] + t;
      DotTailFromLast(a[1..], t, inv);
    } else {
      assert a + t == [a[|a| - 1]] + t;
    }
  }

  /** The character just before the earliest dot tail is not invalid. */
  lemma BeforeDotTailNotInvalid(c: char, t: string, inv: set<char>)
    requires DotTail(t, inv) && !DotTail([c] + t, inv)
    ensures c !in inv
  {
    assert ([c] + t)[1..] == t;
  }

  /** Nothing before the earliest dot tail starts a dot tail. */
  lemma NoEarlierDotTail(a: string, t: string, inv: set<char>)
    requires a != [] && DotTail(t, inv) && !DotTail([a[|a| - 1]] + t, inv)
    ensures !DotTail(a + t, inv)
  {
    if DotTail(a + t, inv) {
      DotTailFromLast(a, t, inv);
    }
  }

  /** The run of invalid characters at the start of `a + t` stops inside `a`
      when the last character of `a` is valid. */
  lemma RunStopsInside(a: string, t: string, inv: set<char>)
    requires a != [] && a[|a| - 1] !in inv
    ensures RunLength(a + t, inv) < |a|
    ensures forall i :: 0 <= i < RunLength(a + t, inv) ==> a[i] in inv
    ensures a[RunLength(a + t, inv)] !in inv
  {
    var s := a + t;
    var k := RunLength(s, inv);
    assert s[|a| - 1] == a[|a| - 1];
    assert forall i :: 0 <= i < |a| ==> s[i] == a[i];
  }

  /** A name `a + t`, where `t` is the dot tail that starts earliest, is the
      run collapse of `a` followed by one `_`: the whole tail becomes `_`. */
  lemma {:induction false} MakeValidFileNameDotTail(a: string, t: string, inv: set<char>)
    requires DotTail(t, inv)
    requires a == [] || !DotTail([a[|a| - 1]] + t, inv)
    ensures MakeValidFileName(a + t, inv) == Collapse(a, inv, false) + "_"
    decreases |a|
  {
    if a == [] {
      assert a + t == t;
    } else {
      var c := a[|a| - 1];
      BeforeDotTailNotInvalid(c, t, inv);
      NoEarlierDotTail(a, t, inv);
      assert (a + t)[0] == a[0];
      if a[0] in inv {
        DotTailRunStep(a, t, inv);
      } else {
        assert (a + t)[1..] == a[1..] + t;
        if |a| > 1 {
          assert a[1..][|a[1..]| - 1] == c;
        }
        MakeValidFileNameDotTail(a[1..], t, inv);
      }
    }
  }

  /** One step of the scan at a run of invalid characters outside a dot tail. */
  lemma ScanRunStep(s: string, inv: set<char>)
    requires s != [] && !DotTail(s, inv) && s[0] in inv
    ensures MakeValidFileName(s, inv) == "_" + MakeValidFileName(s[RunLength(s, inv)..], inv)
  {
  }

  /** The reference collapse writes one `_` for a leading run of `k` invalid
      characters. */
  lemma CollapseRun(a: string, inv: set<char>, k: nat)
    requires 1 <= k < |a| && a[k] !in inv
    requires forall i :: 0 <= i < k ==> a[i] in inv
    ensures Collapse(a, inv, false) == "_" + Collapse(a[k..], inv, false)
  {
    CollapseSkipsRun(a[1..], inv, k - 1);
    assert a[1..][k - 1..] == a[k..];
  }

  /** The step of `MakeValidFileNameDotTail` where `a` starts with a run of
      invalid characters. */
  lemma {:induction false} DotTailRunStep(a: string, t: string, inv: set<char>)
    requires DotTail(t, inv) && a != [] && a[0] in inv
    requires !DotTail([a[|a| - 1]] + t, inv)
    ensures MakeValidFileName(a + t, inv) == Collapse(a, inv, false) + "_"
    decreases |a|, 0
  {
    var s := a + t;
    var c := a[|a| - 1];
    BeforeDotTailNotInvalid(c, t, inv);
    NoEarlierDotTail(a, t, inv);
    RunStopsInside(a, t, inv);
    var k := RunLength(s, inv);
    assert s[0] == a[0];
    ScanRunStep(s, inv);
    var rest := a[k..];
    assert s[k..] == rest + t;
    assert rest[|rest| - 1] == c;
    MakeValidFileNameDotTail(rest, t, inv);
    CollapseRun(a, inv, k);
  }

  /** `k` is the first position where a dot tail starts. */
  predicate EarliestDotTail(s: string, inv: set<char>, k: int)
  {
    0 <= k < |s| && DotTail(s[k..], inv) && forall j :: 0 <= j < k ==> !DotTail(s[j..], inv)
  }

  /** The earliest dot tail of `s[1..]` moves up by one in `s` when `s` itself
      is not a dot tail. */
  lemma EarliestDotTailShift(s: string, inv: set<char>, k': int)
    requires |s| > 1 && !DotTail(s, inv)
    requires EarliestDotTail(s[1..], inv, k')
    ensures EarliestDotTail(s, inv, k' + 1)
  {
    var u := s[1..];
    assert u[k'..] == s[k' + 1..];
    assert forall j :: 1 <= j <= k' ==> s[j..] == u[j - 1..];
  }

  /** A name ending in a dot has an earliest dot tail: at worst its last dot. */
  lemma {:induction false} EarliestDotTailExists(s: string, inv: set<char>)
    requires EndsInDot(s)
    ensures exists k :: EarliestDotTail(s, inv, k)
    decreases |s|
  {
    if DotTail(s, inv) {
      assert s[0..] == s;
      assert EarliestDotTail(s, inv, 0);
    } else {
      assert |s| == 1 ==> AllDots(s);
      assert EndsInDot(s[1..]);
      EarliestDotTailExists(s[1..], inv);
      var k' :| EarliestDotTail(s[1..], inv, k');
      EarliestDotTailShift(s, inv, k');
    }
  }

  /** Every name ending in a dot splits at the earliest dot tail, and it
      sanitises to the run collapse of the part before, then one `_`. */
  lemma MakeValidFileNameEndsInDot(s: string, inv: set<char>)
    requires EndsInDot(s)
    ensures exists k :: EarliestDotTail(s, inv, k) &&
                        MakeValidFileName(s, inv) == Collapse(s[..k], inv, false) + "_"
  {
    EarliestDotTailExists(s, inv);
    var k :| EarliestDotTail(s, inv, k);
    var a := s[..k];
    var t := s[k..];
    assert a + t == s;
    if k > 0 {
      assert [a[|a| - 1]] + t == s[k - 1..];
    }
    MakeValidFileNameDotTail(a, t, inv);
  }

  /** When a name does not end in a dot the first alternative never fires, and
      the scan is exactly the run collapse. */
  lemma {:induction false} MakeValidFileNameIsCollapse(s: string, inv: set<char>)
    requires !EndsInDot(s)
    ensures MakeValidFileName(s, inv) == Collapse(s, inv, false)
    decreases |s|
  {
    if s != [] {
      if DotTail(s, inv) {
        DotTailEndsInDot(s, inv);
      }
      if s[0] in inv {
        var k := RunLength(s, inv);
        var rest := s[k..];
        assert !EndsInDot(rest);
        MakeValidFileNameIsCollapse(rest, inv);
        CollapseSkipsRun(s[1..], inv, k - 1);
        assert s[1..][k - 1..] == rest;
      } else {
        assert !EndsInDot(s[1..]);
        MakeValidFileNameIsCollapse(s[1..], inv);
      }
    }
  }

  /** A name with no invalid character and no trailing dot is left unchanged. */
  lemma {:induction false} MakeValidFileNameKeepsValid(s: string, inv: set<char>)
    requires NoneIn(s, inv) && !EndsInDot(s)
    ensures MakeValidFileName(s, inv) == s
    decreases |s|
  {
    if s != [] {
      if DotTail(s, inv) {
        DotTailEndsInDot(s, inv);
      }
      assert !EndsInDot(s[1..]);
      MakeValidFileNameKeepsValid(s[1..], inv);
    }
  }

  /** Sanitising leaves a name alone exactly when it is already valid. */
  lemma MakeValidFileNameFixpoint(s: string, inv: set<char>)
    requires '_' !in inv
    ensures MakeValidFileName(s, inv) == s <==> NoneIn(s, inv) && !EndsInDot(s)
  {
    if NoneIn(s, inv) && !EndsInDot(s) {
      MakeValidFileNameKeepsValid(s, inv);
    }
  }

  /** Sanitising twice is sanitising once. */
  lemma MakeValidFileNameIdempotent(s: string, inv: set<char>)
    requires '_' !in inv
    ensures MakeValidFileName(MakeValidFileName(s, inv), inv) == MakeValidFileName(s, inv)
  {
    MakeValidFileNameKeepsValid(MakeValidFileName(s, inv), inv);
  }

  // ---------------------------------------------------------------------
  // The saved path and the single collision retry
  // ---------------------------------------------------------------------

  lemma {:induction false} CollapseKeepsValid(x: string, inv: set<char>, afterInvalid: bool)
    requires NoneIn(x, inv)
    ensures Collapse(x, inv, afterInvalid) == x
  {
    if x != [] {
      CollapseKeepsValid(x[1..], inv, false);
    }
  }

  lemma {:induction false} CollapseAppendValid(a: string, x: string, inv: set<char>, afterInvalid: bool)
    requires NoneIn(x, inv)
    ensures Collapse(a + x, inv, afterInvalid) == Collapse(a, inv, afterInvalid) + x
  {
    if a == [] {
      assert a + x == x;
      CollapseKeepsValid(x, inv, afterInvalid);
    } else {
      assert (a + x)[1..] == a[1..] + x;
      CollapseAppendValid(a[1..], x, inv, a[0] in inv);
    }
  }

  lemma MakeValidFileNameConditional(s: string, inv: set<char>)
    ensures NoneIn(s, inv) && !EndsInDot(s) ==> MakeValidFileName(s, inv) == s
  {
    if NoneIn(s, inv) && !EndsInDot(s) {
      MakeValidFileNameKeepsValid(s, inv);
    }
  }

  /** The first candidate: the sanitised file name with its extension, joined
      onto the directory with `/`. */
  function PlainPath(dir: string, base: string, ext: string, inv: set<char>): (r: string)
    ensures |r| > |dir| && r[..|dir| + 1] == dir + "/"
    ensures !EndsInDot(r)
    ensures '_' !in inv ==> NoneIn(r[|dir| + 1..], inv)
    ensures NoneIn(base + ext, inv) && !EndsInDot(base + ext) ==> r == dir + "/" + (base + ext)
  {
    MakeValidFileNameConditional(base + ext, inv);
    dir + "/" + MakeValidFileName(base + ext, inv)
  }

  /** The one retry on a clash: `_1` between the base name and the extension. */
  function RetryPath(dir: string, base: string, ext: string, inv: set<char>): (r: string)
    ensures |r| > |dir| && r[..|dir| + 1] == dir + "/"
    ensures !EndsInDot(r)
    ensures '_' !in inv ==> NoneIn(r[|dir| + 1..], inv)
    ensures NoneIn(base + "_1" + ext, inv) && !EndsInDot(base + "_1" + ext) ==> r == dir + "/" + (base + "_1" + ext)
  {
    MakeValidFileNameConditional(base + "_1" + ext, inv);
    dir + "/" + MakeValidFileName(base + "_1" + ext, inv)
  }

  /** The path a capture of `config` is written to. `fileExists` stands for the
      file system's existence test and `inv` for the platform's set of
      characters not allowed in file names. The format is examined first, so an
      unsupported format fails before any path is computed. */
  function SavePath(dir: string, prefix: string, suffix: string, config: ImageConfig,
                    inv: set<char>, fileExists: string -> bool): (r: Result<string>)
    reads config
    ensures r.Err? <==> config.format == EXR
    ensures r.Err? ==> r.error == ArgumentOutOfRange
    ensures r.Ok? ==>
      var ext := Extension(config.format).value;
      var base := FileName(prefix, config.name, config.width, config.height, suffix);
      && (!fileExists(PlainPath(dir, base, ext, inv)) ==> r.value == PlainPath(dir, base, ext, inv))
      && (fileExists(PlainPath(dir, base, ext, inv)) ==> r.value == RetryPath(dir, base, ext, inv))
    ensures r.Ok? ==>
      && |r.value| > |dir| + 1
      && r.value[..|dir| + 1] == dir + "/"
      && !EndsInDot(r.value)
      && ('_' !in inv ==> NoneIn(r.value[|dir| + 1..], inv))
  {
    var ext :- Extension(config.format);
    var base := FileName(prefix, config.name, config.width, config.height, suffix);
    var plain := PlainPath(dir, base, ext, inv);
    var chosen := if fileExists(plain) then RetryPath(dir, base, ext, inv) else plain;
    assert chosen[|dir| + 1..] == MakeValidFileName(if fileExists(plain) then base + "_1" + ext else base + ext, inv);
    Ok(chosen)
  }

  /** The retry candidate is never tested: two file systems that agree on the
      first candidate give the same path, whatever else exists. */
  lemma RetryNotRechecked(dir: string, prefix: string, suffix: string, config: ImageConfig,
                          inv: set<char>, e1: string -> bool, e2: string -> bool)
    requires config.format != EXR
    requires
      var base := FileName(prefix, config.name, config.width, config.height, suffix);
      e1(PlainPath(dir, base, Extension(config.format).value, inv))
        == e2(PlainPath(dir, base, Extension(config.format).value, inv))
    ensures SavePath(dir, prefix, suffix, config, inv, e1) == SavePath(dir, prefix, suffix, config, inv, e2)
  {
  }

  /** Appending allowed characters that do not end in a dot appends them
      unchanged to the sanitised name. */
  lemma SanitiseAppendValid(base: string, x: string, inv: set<char>)
    requires NoneIn(x, inv) && x != [] && !EndsInDot(x)
    ensures MakeValidFileName(base + x, inv) == Collapse(base, inv, false) + x
  {
    assert (base + x)[|base + x| - 1] == x[|x| - 1];
    MakeValidFileNameIsCollapse(base + x, inv);
    CollapseAppendValid(base, x, inv, false);
  }

  /** The two candidates are different files, as long as `_`, `1` and the
      characters of the extension are all allowed. */
  lemma RetryDiffersFromPlain(dir: string, base: string, ext: string, inv: set<char>)
    requires NoneIn("_1" + ext, inv) && ext != [] && !EndsInDot(ext)
    ensures PlainPath(dir, base, ext, inv) != RetryPath(dir, base, ext, inv)
  {
    assert NoneIn(ext, inv) by {
      forall i | 0 <= i < |ext| ensures ext[i] !in inv {
        assert ("_1" + ext)[i + 2] == ext[i];
      }
    }
    SanitiseAppendValid(base, ext, inv);
    assert ("_1" + ext)[|"_1" + ext| - 1] == ext[|ext| - 1];
    SanitiseAppendValid(base, "_1" + ext, inv);
    assert base + "_1" + ext == base + ("_1" + ext);
    assert |PlainPath(dir, base, ext, inv)| + 2 == |RetryPath(dir, base, ext, inv)|;
  }

  /** Three identical captures in a row. When the first candidate is free the
      first capture takes it; the second finds it taken and takes the `_1`
      name; the third also finds the first candidate taken and takes the same
      `_1` name again, overwriting the second image. */
  lemma ThirdCaptureOverwritesSecond(dir: string, prefix: string, suffix: string, config: ImageConfig,
                                     inv: set<char>, e0: string -> bool)
    requires config.format != EXR
    requires NoneIn("_1" + Extension(config.format).value, inv)
    requires
      var base := FileName(prefix, config.name, config.width, config.height, suffix);
      !e0(PlainPath(dir, base, Extension(config.format).value, inv))
    ensures
      var p1 := SavePath(dir, prefix, suffix, config, inv, e0).value;
      var e1 := (x: string) => e0(x) || x == p1;
      var p2 := SavePath(dir, prefix, suffix, config, inv, e1).value;
      var e2 := (x: string) => e1(x) || x == p2;
      var p3 := SavePath(dir, prefix, suffix, config, inv, e2).value;
      && p1 == PlainPath(dir, FileName(prefix, config.name, config.width, config.height, suffix), Extension(config.format).value, inv)
      && p2 == RetryPath(dir, FileName(prefix, config.name, config.width, config.height, suffix), Extension(config.format).value, inv)
      && p1 != p2
      && p3 == p2
  {
    var base := FileName(prefix, config.name, config.width, config.height, suffix);
    RetryDiffersFromPlain(dir, base, Extension(config.format).value, inv);
  }

  lemma HundredByHundred()
    ensures FileName("", "name", 100, 100, "") == "name-100x100"
  {
    assert NatToString(10) == NatToString(1) + [DigitChar(0)] == "10";
    assert NatToString(100) == NatToString(10) + [DigitChar(0)];
  }

  lemma KeptAsIs(s: string)
    requires s == "name-100x100.png" || s == "name-100x100_1.png"
    ensures MakeValidFileName(s, {'/'}) == s
  {
    assert NoneIn(s, {'/'});
    MakeValidFileNameKeepsValid(s, {'/'});
  }

  lemma CollisionLiterals()
    ensures "Shots/" + "/" + "name-100x100.png" == "Shots//name-100x100.png"
    ensures "Shots/" + "/" + "name-100x100_1.png" == "Shots//name-100x100_1.png"
    ensures "name-100x100" + ".png" == "name-100x100.png"
    ensures "name-100x100" + "_1" + ".png" == "name-100x100_1.png"
  {
  }

  /** A worked case: a 100x100 PNG named `name`, saved into `Shots/` with no
      prefix or suffix, when the first candidate already exists, lands on the
      `_1` name (and, the folder ending in `/`, after a double slash). */
  lemma CollisionExample(config: ImageConfig)
    requires config.name == "name" && config.width == 100 && config.height == 100 && config.format == PNG
    ensures SavePath("Shots/", "", "", config, {'/'}, (p: string) => p == "Shots//name-100x100.png")
      == Ok("Shots//name-100x100_1.png")
  {
    HundredByHundred();
    var base := FileName("", config.name, config.width, config.height, "");
    CollisionLiterals();
    KeptAsIs(base + ".png");
    KeptAsIs(base + "_1" + ".png");
  }

  // ---------------------------------------------------------------------
  // The batch's output directory and the temporary size label
  // ---------------------------------------------------------------------

  /** The directory a batch writes into: the save folder, `/`, and the time
      stamp when collecting into a stamped folder, nothing otherwise. The
      clock's reading is the `timeStamp` parameter. */
  function ShotDirectory(saveFolder: string, collectToFolder: bool, timeStamp: string): (dir: string)
    ensures |dir| > |saveFolder| && dir[..|saveFolder| + 1] == saveFolder + "/"
    ensures collectToFolder ==> dir == saveFolder + "/" + timeStamp
    ensures !collectToFolder ==> dir == saveFolder + "/"
  {
    saveFolder + "/" + (if collectToFolder then timeStamp else "")
  }

  /** Without a stamped folder the directory already ends in `/`, and joining
      the file name adds another: every saved path starts with the save folder
      followed by `//`. */
  lemma UnstampedPathHasDoubleSlash(saveFolder: string, timeStamp: string, prefix: string, suffix: string,
                                    config: ImageConfig, inv: set<char>, fileExists: string -> bool)
    requires config.format != EXR
    ensures
      var r := SavePath(ShotDirectory(saveFolder, false, timeStamp), prefix, suffix, config, inv, fileExists);
      r.Ok? && |r.value| > |saveFolder| + 2 && r.value[..|saveFolder| + 2] == saveFolder + "//"
  {
    var dir := ShotDirectory(saveFolder, false, timeStamp);
    var r := SavePath(dir, prefix, suffix, config, inv, fileExists);
    assert r.value[..|dir| + 1] == dir + "/";
    assert dir + "/" == saveFolder + "//";
  }

  /** The label of the temporary display size a batch registers for each
      image: `temp_`, the width, `x`, the height. It never holds a `(`. */
  function TempSizeName(width: int, height: int): (name: string)
    ensures |name| > 5 && name[..5] == "temp_"
    ensures forall i :: 0 <= i < |name| ==> name[i] != '('
  {
    var w := IntToString(width);
    var h := IntToString(height);
    assert forall i :: 0 <= i < |w| ==> w[i] != '(' by {
      forall i | 0 <= i < |w| ensures w[i] != '(' { if i > 0 { assert IsDigit(w[i]); } }
    }
    assert forall i :: 0 <= i < |h| ==> h[i] != '(' by {
      forall i | 0 <= i < |h| ensures h[i] != '(' { if i > 0 { assert IsDigit(h[i]); } }
    }
    "temp_" + w + "x" + h
  }
}
