/** The worker's two constants: the name of its cache and the list of assets
    it stores there on install. */
module Manifest {
  import opened Outcomes
  import opened Sequences

  /** The version tag: the name of the current cache. */
  const CACHE: string := "sketch-v1"

  /** How many animation frames the page ships. */
  const FRAME_COUNT: nat := 30

  const FRAME_PREFIX: string := "./images/frame_"
  const FRAME_SUFFIX: string := ".png"

  predicate IsDigit(c: char)
  {
    '0' <= c <= '9'
  }

  function DigitChar(d: nat): (c: char)
    requires d < 10
    ensures IsDigit(c)
  {
    ('0' as int + d) as char
  }

  function DigitValue(c: char): (d: nat)
    requires IsDigit(c)
    ensures d < 10 && DigitChar(d) == c
  {
    c as int - '0' as int
  }

  /** The number a string of decimal digits spells, most significant digit first. */
  function DigitsValue(s: string): nat
    requires forall i :: 0 <= i < |s| ==> IsDigit(s[i])
  {
    if s == [] then 0 else 10 * DigitsValue(s[..|s| - 1]) + DigitValue(s[|s| - 1])
  }

  /** `String(n)` for a non-negative integer: the decimal digits that spell `n`,
      with no leading zero (`DecimalStringSpells`). */
  function DecimalString(n: nat): (s: string)
    ensures 1 <= |s|
    ensures forall i :: 0 <= i < |s| ==> IsDigit(s[i])
    ensures n < 10 <==> |s| == 1
  {
    if n < 10 then [DigitChar(n)] else DecimalString(n / 10) + [DigitChar(n % 10)]
  }

  /** The digits of `String(n)` spell `n`, and only zero is written with a
      leading zero. */
  lemma {:induction false} DecimalStringSpells(n: nat)
    ensures n > 0 ==> DecimalString(n)[0] != '0'
    ensures DigitsValue(DecimalString(n)) == n
  {
    var s := DecimalString(n);
    if n >= 10 {
      DecimalStringSpells(n / 10);
      assert s[..|s| - 1] == DecimalString(n / 10);
    } else {
      assert s == [DigitChar(n)];
      assert s[..0] == [];
    }
  }

  /** `s.padStart(width, fill)` with a one-character `fill`: `s` itself when it
      is at least `width` long, otherwise `s` behind enough copies of `fill`
      to make it `width` long. */
  function PadStart(s: string, width: nat, fill: char): (r: string)
    ensures |r| == if |s| < width then width else |s|
    ensures r[|r| - |s|..] == s
    ensures forall i :: 0 <= i < |r| - |s| ==> r[i] == fill
  {
    if |s| < width then seq(width - |s|, _ => fill) + s else s
  }

  /** The path of frame `k`: `./images/frame_${String(k).padStart(2,'0')}.png`. */
  function FramePath(k: nat): string
  {
    FRAME_PREFIX + PadStart(DecimalString(k), 2, '0') + FRAME_SUFFIX
  }

  /** `Array.from({length: count}, (_, i) => FramePath(i + 1))`. */
  function FramePaths(count: nat): (r: seq<string>)
    ensures |r| == count
  {
    seq(count, i requires 0 <= i => FramePath(i + 1))
  }

  /** The assets stored on install: the page root, the entry document, then
      the frames in order. */
  const FILES: seq<string> := ["./", "./index.html"] + FramePaths(FRAME_COUNT)

  /** Reads a frame number back out of a path of the form
      `./images/frame_NN.png` with exactly two digits; any other string has none. */
  function FrameNumber(p: string): Option<nat>
  {
    if |p| == |FRAME_PREFIX| + 2 + |FRAME_SUFFIX|
       && p[..|FRAME_PREFIX|] == FRAME_PREFIX
       && p[|FRAME_PREFIX| + 2..] == FRAME_SUFFIX
       && IsDigit(p[|FRAME_PREFIX|]) && IsDigit(p[|FRAME_PREFIX| + 1])
    then Some(10 * DigitValue(p[|FRAME_PREFIX|]) + DigitValue(p[|FRAME_PREFIX| + 1]))
    else None
  }

  /** Below 100, `String(k).padStart(2, '0')` is the two decimal digits of `k`. */
  lemma TwoDigits(k: nat)
    requires k < 100
    ensures PadStart(DecimalString(k), 2, '0') == [DigitChar(k / 10), DigitChar(k % 10)]
  {
    var hi, lo := k / 10, k % 10;
    assert hi < 10 && lo < 10 && k == 10 * hi + lo;
    if k < 10 {
      assert hi == 0 && lo == k;
      var d := DecimalString(k);
      assert d == [DigitChar(lo)];
      assert PadStart(d, 2, '0') == ['0'] + d;
    } else {
      assert DecimalString(hi) == [DigitChar(hi)];
      assert DecimalString(k) == [DigitChar(hi), DigitChar(lo)];
    }
  }

  /** A frame path below 100 is the prefix, two digits and the suffix: 21 characters. */
  lemma FramePathSpelling(k: nat)
    requires k < 100
    ensures FramePath(k) == FRAME_PREFIX + [DigitChar(k / 10), DigitChar(k % 10)] + FRAME_SUFFIX
    ensures |FramePath(k)| == 21
  {
    TwoDigits(k);
  }

  /** Reading the number back out of the path of frame `k` gives `k`. */
  lemma FrameNumberOfFramePath(k: nat)
    requires k < 100
    ensures FrameNumber(FramePath(k)) == Some(k)
  {
    FramePathSpelling(k);
    var p := FramePath(k);
    var n := |FRAME_PREFIX|;
    assert p[..n] == FRAME_PREFIX;
    assert p[n + 2..] == FRAME_SUFFIX;
    assert p[n] == DigitChar(k / 10) && p[n + 1] == DigitChar(k % 10);
  }

  /** Two decimal digits read back as a number give those digits again. */
  lemma DigitsOfTwoDigitNumber(hi: nat, lo: nat)
    requires hi < 10 && lo < 10
    ensures (10 * hi + lo) / 10 == hi && (10 * hi + lo) % 10 == lo
  {
  }

  /** Conversely, every string with a frame number is the path of that frame. */
  lemma FramePathOfFrameNumber(p: string)
    requires FrameNumber(p).Some?
    ensures FrameNumber(p).value < 100
    ensures FramePath(FrameNumber(p).value) == p
  {
    var n := |FRAME_PREFIX|;
    var hi, lo := DigitValue(p[n]), DigitValue(p[n + 1]);
    var k := 10 * hi + lo;
    assert FrameNumber(p) == Some(k);
    DigitsOfTwoDigitNumber(hi, lo);
    FramePathSpelling(k);
    assert DigitChar(hi) == p[n] && DigitChar(lo) == p[n + 1];
    assert p == p[..n] + [p[n], p[n + 1]] + p[n + 2..];
  }

  /** Frame paths below 100 name different frames with different strings. */
  lemma FramePathInjective(j: nat, k: nat)
    requires j < 100 && k < 100 && j != k
    ensures FramePath(j) != FramePath(k)
  {
    FrameNumberOfFramePath(j);
    FrameNumberOfFramePath(k);
  }

  /** Entry `i` of the manifest, from the third on, is the path of frame `i - 1`. */
  lemma ManifestEntry(i: nat)
    requires 2 <= i < 2 + FRAME_COUNT
    ensures |FILES| == 2 + FRAME_COUNT
    ensures FILES[i] == FramePath(i - 1)
  {
    var frames := FramePaths(FRAME_COUNT);
    assert FILES == ["./", "./index.html"] + frames;
    assert FILES[i] == frames[i - 2];
  }

  /** The manifest holds 32 entries: `./`, `./index.html`, then frame 1 to
      frame 30, each frame number written with two digits. */
  lemma ManifestShape()
    ensures |FILES| == 32
    ensures FILES[0] == "./" && FILES[1] == "./index.html"
    ensures forall k :: 1 <= k <= FRAME_COUNT ==>
      FILES[k + 1] == FRAME_PREFIX + [DigitChar(k / 10), DigitChar(k % 10)] + FRAME_SUFFIX
  {
    forall k | 1 <= k <= FRAME_COUNT
      ensures FILES[k + 1] == FRAME_PREFIX + [DigitChar(k / 10), DigitChar(k % 10)] + FRAME_SUFFIX
    {
      ManifestEntry(k + 1);
      FramePathSpelling(k);
    }
  }

  /** The image entries count up from frame 1 to frame 30 without a gap, and
      the first two entries are not frame paths. */
  lemma ManifestFrameNumbers()
    ensures FrameNumber(FILES[0]).None? && FrameNumber(FILES[1]).None?
    ensures forall i :: 2 <= i < |FILES| ==> FrameNumber(FILES[i]) == Some(i - 1)
  {
    ManifestEntry(2);
    forall i | 2 <= i < |FILES| ensures FrameNumber(FILES[i]) == Some(i - 1) {
      ManifestEntry(i);
      FrameNumberOfFramePath(i - 1);
    }
  }

  /** No asset is listed twice. */
  lemma ManifestDistinct()
    ensures Distinct(FILES)
  {
    ManifestEntry(2);
    forall i, j | 0 <= i < j < |FILES| ensures FILES[i] != FILES[j] {
      if j >= 2 {
        ManifestEntry(j);
        FramePathSpelling(j - 1);
      }
      if i >= 2 {
        ManifestEntry(i);
        FramePathInjective(i - 1, j - 1);
      }
    }
  }

  /** A few entries written out. */
  lemma ManifestExamples()
    ensures FILES[2] == "./images/frame_01.png"
    ensures FILES[10] == "./images/frame_09.png"
    ensures FILES[11] == "./images/frame_10.png"
    ensures FILES[31] == "./images/frame_30.png"
  {
    ManifestEntry(2);
    ManifestEntry(10);
    ManifestEntry(11);
    ManifestEntry(31);
    FramePathSpelling(1);
    FramePathSpelling(9);
    FramePathSpelling(10);
    FramePathSpelling(30);
  }
}
