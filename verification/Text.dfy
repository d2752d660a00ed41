/**
 * Zero-padded decimal text and the string order the application relies on:
 * JavaScript compares strings code unit by code unit.
 */
module Text {

  /** `s < t` on strings. */
  predicate StringBefore(s: string, t: string) {
    |t| > 0 && (|s| == 0 || s[0] < t[0] || (s[0] == t[0] && StringBefore(s[1..], t[1..])))
  }

  function Digit(n: int): (c: char)
    requires 0 <= n < 10
    ensures '0' <= c <= '9'
  {
    ('0' as int + n) as char
  }

  function Power10(width: nat): (p: nat)
    ensures p > 0
  {
    if width == 0 then 1 else 10 * Power10(width - 1)
  }

  /** `String(n).padStart(width, '0')` for a number that fits in `width` digits. */
  function Pad(n: nat, width: nat): (s: string)
    requires n < Power10(width)
    ensures |s| == width
    ensures forall i :: 0 <= i < width ==> '0' <= s[i] <= '9'
  {
    if width == 0 then "" else Pad(n / 10, width - 1) + [Digit(n % 10)]
  }

  predicate AllDigits(s: string) {
    forall i :: 0 <= i < |s| ==> '0' <= s[i] <= '9'
  }

  /** `Number(s)` for a string of digits. */
  function Unpad(s: string): (n: nat)
    requires AllDigits(s)
  {
    if s == "" then 0
    else 10 * Unpad(s[..|s| - 1]) + (s[|s| - 1] as int - '0' as int)
  }

  lemma {:induction false} UnpadPad(n: nat, width: nat)
    requires n < Power10(width)
    ensures Unpad(Pad(n, width)) == n
  {
    if width > 0 {
      UnpadPad(n / 10, width - 1);
      assert Pad(n, width)[..width - 1] == Pad(n / 10, width - 1);
    }
  }

  /** The order of concatenations whose first parts have one length is decided part by part. */
  lemma {:induction false} ConcatOrder(a: string, s: string, b: string, t: string)
    requires |a| == |b|
    ensures StringBefore(a + s, b + t) <==> StringBefore(a, b) || (a == b && StringBefore(s, t))
    decreases |a|
  {
    if a == "" {
      assert a + s == s && b + t == t;
    } else {
      assert (a + s)[1..] == a[1..] + s && (b + t)[1..] == b[1..] + t;
      ConcatOrder(a[1..], s, b[1..], t);
      assert a == b <==> a[0] == b[0] && a[1..] == b[1..];
    }
  }

  lemma PadInjective(m: nat, n: nat, width: nat)
    requires m < Power10(width) && n < Power10(width)
    ensures Pad(m, width) == Pad(n, width) <==> m == n
  {
    UnpadPad(m, width);
    UnpadPad(n, width);
  }

  lemma TensThenOnes(m: nat, n: nat)
    ensures m < n <==> m / 10 < n / 10 || (m / 10 == n / 10 && m % 10 < n % 10)
  {
  }

  /** Zero-padded numbers of one width compare as text exactly as they do as numbers. */
  lemma {:induction false} PadOrder(m: nat, n: nat, width: nat)
    requires m < Power10(width) && n < Power10(width)
    ensures StringBefore(Pad(m, width), Pad(n, width)) <==> m < n
    ensures Pad(m, width) == Pad(n, width) <==> m == n
  {
    PadInjective(m, n, width);
    if width > 0 {
      var (p, q) := (Pad(m / 10, width - 1), Pad(n / 10, width - 1));
      var (c, d) := ([Digit(m % 10)], [Digit(n % 10)]);
      assert Pad(m, width) == p + c && Pad(n, width) == q + d;
      assert StringBefore(c, d) <==> m % 10 < n % 10;
      PadOrder(m / 10, n / 10, width - 1);
      TensThenOnes(m, n);
      hide Pad, StringBefore, Power10;
      ConcatOrder(p, c, q, d);
    }
  }

  /** Three fields with a separator: the shape of both dates and clock times. */
  function Fields(x: string, y: string, z: string, separator: char): (s: string)
    ensures |s| == |x| + |y| + |z| + 2
  {
    x + ([separator] + (y + ([separator] + z)))
  }

  lemma SeparatorOrder(s: string, t: string, separator: char)
    ensures StringBefore([separator] + s, [separator] + t) <==> StringBefore(s, t)
  {
  }

  lemma FieldsInjective(x: string, y: string, z: string, u: string, v: string, w: string, separator: char)
    requires |x| == |u| && |y| == |v| && |z| == |w|
    ensures Fields(x, y, z, separator) == Fields(u, v, w, separator) <==> x == u && y == v && z == w
  {
    var (s, t) := (Fields(x, y, z, separator), Fields(u, v, w, separator));
    var k := |x| + 1 + |y|;
    assert s[..|x|] == x && s[|x| + 1..k] == y && s[k + 1..] == z;
    assert t[..|x|] == u && t[|x| + 1..k] == v && t[k + 1..] == w;
  }

  /** Texts with fields of equal widths compare field by field. */
  lemma FieldsOrder(x: string, y: string, z: string, u: string, v: string, w: string, separator: char)
    requires |x| == |u| && |y| == |v| && |z| == |w|
    ensures StringBefore(Fields(x, y, z, separator), Fields(u, v, w, separator))
            <==> StringBefore(x, u) || (x == u && (StringBefore(y, v) || (y == v && StringBefore(z, w))))
    ensures Fields(x, y, z, separator) == Fields(u, v, w, separator) <==> x == u && y == v && z == w
  {
    FieldsInjective(x, y, z, u, v, w, separator);
    hide StringBefore;
    SeparatorOrder(z, w, separator);
    ConcatOrder(y, [separator] + z, v, [separator] + w);
    SeparatorOrder(y + ([separator] + z), v + ([separator] + w), separator);
    ConcatOrder(x, [separator] + (y + ([separator] + z)), u, [separator] + (v + ([separator] + w)));
  }
}
