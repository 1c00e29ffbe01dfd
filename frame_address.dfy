/** Frame addressing: frame `index` (0-based) lives at
    /images/ezgif-frame-NNN.jpg, where NNN is index + 1 in decimal, padded on
    the left with '0' to three characters. */
module FrameAddress {

  /** Number of frames in the sequence. */
  const TotalFrames: nat := 192

  const FramePrefix: string := "/images/ezgif-frame-"
  const FrameSuffix: string := ".jpg"

  function DigitChar(d: nat): (c: char)
    requires d < 10
    ensures '0' <= c <= '9'
  {
    (('0' as int) + d) as char
  }

  /** `String(n)` for a non-negative integer: its decimal digits, most
      significant first, with no leading zero. */
  function DecimalString(n: nat): (s: string)
    ensures 1 <= |s|
    ensures forall k :: 0 <= k < |s| ==> '0' <= s[k] <= '9'
  {
    if n < 10 then [DigitChar(n)] else DecimalString(n / 10) + [DigitChar(n % 10)]
  }

  /** `s.padStart(width, fill)`: fill is prepended until s is `width` long; a
      string that is already long enough is returned as it is. */
  function PadStart(s: string, width: nat, fill: char): (r: string)
    ensures |r| == if |s| >= width then |s| else width
    ensures r[|r| - |s|..] == s
    ensures forall k :: 0 <= k < |r| - |s| ==> r[k] == fill
  {
    if |s| >= width then s else seq(width - |s|, _ => fill) + s
  }

  /** `frameSrc(index)` */
  function FrameSrc(index: nat): (s: string)
    ensures |s| >= |FramePrefix| + 3 + |FrameSuffix|
  {
    FramePrefix + PadStart(DecimalString(index + 1), 3, '0') + FrameSuffix
  }

  /** The three-character decimal form of n < 1000, leading zeros included. */
  function ThreeDigits(n: nat): (s: string)
    requires n < 1000
    ensures |s| == 3
  {
    [DigitChar(n / 100), DigitChar(n / 10 % 10), DigitChar(n % 10)]
  }

  lemma DivDiv10(n: nat)
    ensures n / 10 / 10 == n / 100
    ensures n / 10 % 10 == (n % 100) / 10
  {
    var q, r := n / 100, n % 100;
    assert n == 100 * q + r;
    assert n / 10 == 10 * q + r / 10;
  }

  /** Padding `String(n)` to three places gives exactly the three decimal
      digits of n, for every n below 1000. */
  lemma {:induction false} PaddedIsThreeDigits(n: nat)
    requires n < 1000
    ensures PadStart(DecimalString(n), 3, '0') == ThreeDigits(n)
  {
    DivDiv10(n);
    if n < 10 {
      assert DecimalString(n) == [DigitChar(n)];
      assert DigitChar(0) == '0';
    } else if n < 100 {
      assert DecimalString(n / 10) == [DigitChar(n / 10)];
      assert DecimalString(n) == [DigitChar(n / 10), DigitChar(n % 10)];
      assert DigitChar(0) == '0';
    } else {
      var m := n / 10;
      DivDiv10(m);
      assert 10 <= m < 100;
      assert DecimalString(m / 10) == [DigitChar(m / 10)];
      assert DecimalString(m) == [DigitChar(m / 10), DigitChar(m % 10)];
      assert DecimalString(n) == [DigitChar(n / 100), DigitChar(n / 10 % 10), DigitChar(n % 10)];
    }
  }

  /** Every frame of the sequence is addressed by the three-digit, 1-based
      form of its index. */
  lemma FrameSrcShape(index: nat)
    requires index < TotalFrames
    ensures FrameSrc(index) == FramePrefix + ThreeDigits(index + 1) + FrameSuffix
    ensures |FrameSrc(index)| == 27
  {
    PaddedIsThreeDigits(index + 1);
  }

  /** The first and the last frame, written out. */
  lemma FirstAndLastFrameSrc()
    ensures FrameSrc(0) == "/images/ezgif-frame-001.jpg"
    ensures FrameSrc(TotalFrames - 1) == "/images/ezgif-frame-192.jpg"
  {
    FrameSrcShape(0);
    FrameSrcShape(TotalFrames - 1);
  }

  lemma ThreeDigitsInjective(m: nat, n: nat)
    requires m < 1000 && n < 1000
    requires ThreeDigits(m) == ThreeDigits(n)
    ensures m == n
  {
    assert ThreeDigits(m)[0] == ThreeDigits(n)[0];
    assert ThreeDigits(m)[1] == ThreeDigits(n)[1];
    assert ThreeDigits(m)[2] == ThreeDigits(n)[2];
    assert m == 100 * (m / 100) + 10 * (m / 10 % 10) + m % 10 by { DivDiv10(m); }
    assert n == 100 * (n / 100) + 10 * (n / 10 % 10) + n % 10 by { DivDiv10(n); }
  }

  /** Distinct frames never share a file name. */
  lemma FrameSrcInjective(i: nat, j: nat)
    requires i < TotalFrames && j < TotalFrames
    requires FrameSrc(i) == FrameSrc(j)
    ensures i == j
  {
    FrameSrcShape(i);
    FrameSrcShape(j);
    assert FrameSrc(i)[20..23] == ThreeDigits(i + 1);
    assert FrameSrc(j)[20..23] == ThreeDigits(j + 1);
    ThreeDigitsInjective(i + 1, j + 1);
  }
}
