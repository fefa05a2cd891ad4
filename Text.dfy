/** Decimal digits, zero padding, lexicographic string order and
    ';'-terminated field lists: the string machinery the CSV export is built on. */
module Text {

  datatype Option<T> = None | Some(value: T)

  /** 10^w */
  function Pow10(w: nat): (r: nat)
    ensures r >= 1
  {
    if w == 0 then 1 else 10 * Pow10(w - 1)
  }

  predicate IsDigit(c: char) {
    '0' <= c <= '9'
  }

  predicate IsDigits(s: string) {
    forall i :: 0 <= i < |s| ==> IsDigit(s[i])
  }

  function DigitValue(c: char): (r: nat)
    requires IsDigit(c)
  {
    c as int - '0' as int
  }

  /** The character of the decimal digit n. */
  function Digit(n: nat): (c: char)
    requires n < 10
    ensures IsDigit(c) && DigitValue(c) == n
  {
    (n + '0' as int) as char
  }

  /** The number a string of decimal digits denotes. */
  function Value(s: string): (r: nat)
    requires IsDigits(s)
  {
    if s == [] then 0 else 10 * Value(s[..|s| - 1]) + DigitValue(s[|s| - 1])
  }

  /** n written in exactly w decimal digits, most significant first. */
  function Pad(n: nat, w: nat): (r: string)
    requires n < Pow10(w)
    ensures |r| == w && IsDigits(r)
  {
    if w == 0 then [] else Pad(n / 10, w - 1) + [Digit(n % 10)]
  }

  lemma {:induction false} PadValue(n: nat, w: nat)
    requires n < Pow10(w)
    ensures Value(Pad(n, w)) == n
  {
    if w > 0 {
      var p := Pad(n, w);
      assert p[..|p| - 1] == Pad(n / 10, w - 1);
      PadValue(n / 10, w - 1);
    }
  }

  lemma {:induction false} ValuePad(s: string)
    requires IsDigits(s)
    ensures Value(s) < Pow10(|s|) && Pad(Value(s), |s|) == s
  {
    if s != [] {
      var init, c := s[..|s| - 1], s[|s| - 1];
      ValuePad(init);
      var v := Value(s);
      assert v / 10 == Value(init) && v % 10 == DigitValue(c);
      assert Digit(DigitValue(c)) == c;
      assert s == init + [c];
    }
  }

  lemma PadInjective(x: nat, y: nat, w: nat)
    requires x < Pow10(w) && y < Pow10(w)
    ensures Pad(x, w) == Pad(y, w) <==> x == y
  {
    PadValue(x, w);
    PadValue(y, w);
  }

  /** String.valueOf of a non-negative int: its shortest decimal text. */
  function DecimalString(n: nat): (r: string)
    ensures 1 <= |r| && IsDigits(r)
  {
    if n < 10 then [Digit(n)] else DecimalString(n / 10) + [Digit(n % 10)]
  }

  /** The decimal text denotes n and has no leading zero. */
  lemma {:induction false} DecimalStringValue(n: nat)
    ensures Value(DecimalString(n)) == n
    ensures |DecimalString(n)| > 1 ==> DecimalString(n)[0] != '0'
  {
    if n >= 10 {
      var r := DecimalString(n);
      assert r[..|r| - 1] == DecimalString(n / 10);
      DecimalStringValue(n / 10);
    }
  }

  /** StringUtils.leftPad(s, size, pad): pad on the left up to size characters. */
  function LeftPad(s: string, size: nat, pad: char): (r: string)
    ensures |r| == if |s| >= size then |s| else size
  {
    if |s| >= size then s else seq(size - |s|, _ => pad) + s
  }

  /** The padded text ends with s and everything before it is the pad character. */
  lemma LeftPadParts(s: string, size: nat, pad: char)
    ensures var r := LeftPad(s, size, pad);
      r[|r| - |s|..] == s && forall i :: 0 <= i < |r| - |s| ==> r[i] == pad
  {
  }

  /** The decimal text of n left-padded with zeros to width w: what both
      String.format("%0<w>d", n) and leftPad(String.valueOf(n), w, "0") give for n >= 0. */
  function ZeroPad(n: nat, w: nat): (r: string)
    ensures |r| >= w && |r| >= |DecimalString(n)|
  {
    LeftPad(DecimalString(n), w, '0')
  }

  lemma {:induction false} DecimalLength(n: nat, w: nat)
    requires 1 <= w && n < Pow10(w)
    ensures |DecimalString(n)| <= w
  {
    if n >= 10 {
      DecimalLength(n / 10, w - 1);
    }
  }

  lemma {:induction false} LeadingZeros(k: nat, s: string)
    requires IsDigits(s)
    ensures IsDigits(seq(k, _ => '0') + s) && Value(seq(k, _ => '0') + s) == Value(s)
  {
    var z := seq(k, _ => '0');
    if s == [] {
      assert z + s == z;
      ZerosValue(k);
    } else {
      LeadingZeros(k, s[..|s| - 1]);
      assert (z + s)[..|z + s| - 1] == z + s[..|s| - 1];
    }
  }

  lemma {:induction false} ZerosValue(k: nat)
    ensures IsDigits(seq(k, _ => '0')) && Value(seq(k, _ => '0')) == 0
  {
    if k > 0 {
      ZerosValue(k - 1);
      assert seq(k, _ => '0')[..k - 1] == seq(k - 1, _ => '0');
    }
  }

  /** Zero padding of a number that fits the width is the fixed-width numeral. */
  lemma ZeroPadIsPad(n: nat, w: nat)
    requires 1 <= w && n < Pow10(w)
    ensures ZeroPad(n, w) == Pad(n, w)
  {
    var s := DecimalString(n);
    DecimalLength(n, w);
    var z := seq(w - |s|, _ => '0');
    var r := ZeroPad(n, w);
    assert r == z + s by {
      if |s| == w {
        assert z == [];
      }
    }
    assert IsDigits(r) && Value(r) == n && |r| == w by {
      DecimalStringValue(n);
      LeadingZeros(w - |s|, s);
    }
    ValuePad(r);
  }

  /** StringUtils.compare(a, b) <= 0: Java's String.compareTo order on characters,
      a proper prefix ordered first. */
  predicate LexLe(a: string, b: string): (r: bool)
    ensures StartsWith(b, a) ==> r
  {
    if a == [] then true
    else if b == [] then false
    else if a[0] != b[0] then a[0] < b[0]
    else
      assert StartsWith(b, a) ==> b[1..][..|a| - 1] == a[1..];
      LexLe(a[1..], b[1..])
  }

  lemma {:induction false} LexLeTransitive(a: string, b: string, c: string)
    ensures LexLe(a, b) && LexLe(b, c) ==> LexLe(a, c)
  {
    if a != [] && b != [] && c != [] && a[0] == b[0] && b[0] == c[0] {
      LexLeTransitive(a[1..], b[1..], c[1..]);
    }
  }

  /** Comparing two concatenations whose first parts have equal length. */
  lemma {:induction false} LexLeConcat(p: string, s: string, q: string, t: string)
    requires |p| == |q|
    ensures LexLe(p + s, q + t) == if p == q then LexLe(s, t) else LexLe(p, q)
  {
    if p == [] {
      assert p + s == s && q + t == t;
    } else {
      assert (p + s)[0] == p[0] && (q + t)[0] == q[0];
      assert (p + s)[1..] == p[1..] + s && (q + t)[1..] == q[1..] + t;
      if p[0] == q[0] {
        LexLeConcat(p[1..], s, q[1..], t);
        assert p == [p[0]] + p[1..] && q == [q[0]] + q[1..];
      }
    }
  }

  /** Fixed-width numerals compare as strings exactly as their numbers compare. */
  lemma {:induction false} PadOrder(x: nat, y: nat, w: nat)
    requires x < Pow10(w) && y < Pow10(w)
    ensures LexLe(Pad(x, w), Pad(y, w)) <==> x <= y
  {
    if w > 0 {
      var hx, hy := x / 10, y / 10;
      PadOrder(hx, hy, w - 1);
      PadInjective(hx, hy, w - 1);
      var dx, dy := Digit(x % 10), Digit(y % 10);
      assert Pad(x, w) == Pad(hx, w - 1) + [dx] && Pad(y, w) == Pad(hy, w - 1) + [dy];
      LexLeConcat(Pad(hx, w - 1), [dx], Pad(hy, w - 1), [dy]);
      assert LexLe([dx], [dy]) <==> x % 10 <= y % 10 by {
        if dx == dy {
          assert [dx][1..] == [] && [dy][1..] == [];
        }
      }
      assert x <= y <==> hx < hy || (hx == hy && x % 10 <= y % 10);
    }
  }

  predicate StartsWith(s: string, prefix: string) {
    |prefix| <= |s| && s[..|prefix|] == prefix
  }

  /** The fields, each followed by ';': how the header and every data row are laid out. */
  function Terminated(fields: seq<string>): (r: string) {
    if fields == [] then []
    else Terminated(fields[..|fields| - 1]) + fields[|fields| - 1] + ";"
  }

  lemma {:induction false} TerminatedCons(x: string, xs: seq<string>)
    ensures Terminated([x] + xs) == x + ";" + Terminated(xs)
  {
    if xs != [] {
      var ys := [x] + xs;
      assert ys[..|ys| - 1] == [x] + xs[..|xs| - 1];
      TerminatedCons(x, xs[..|xs| - 1]);
    } else {
      assert [x][..0] == [];
    }
  }

  /** Length of the text before the first ';'. */
  function FieldLength(s: string): (n: nat)
    ensures n <= |s|
  {
    if s == [] || s[0] == ';' then 0 else 1 + FieldLength(s[1..])
  }

  /** Reads a line back into fields by cutting it after every ';'. */
  function Fields(s: string): (r: seq<string>)
    decreases |s|
  {
    if s == [] then []
    else
      var n := FieldLength(s);
      [s[..n]] + Fields(if n < |s| then s[n + 1..] else [])
  }

  lemma {:induction false} FieldLengthBefore(x: string, r: string)
    requires ';' !in x
    ensures FieldLength(x + ";" + r) == |x|
  {
    if x != [] {
      assert (x + ";" + r)[1..] == x[1..] + ";" + r;
      FieldLengthBefore(x[1..], r);
    }
  }

  /** Reading a ';'-terminated line back gives the fields it was made of,
      provided no field contains ';'. */
  lemma {:induction false} FieldsTerminated(xs: seq<string>)
    requires forall i :: 0 <= i < |xs| ==> ';' !in xs[i]
    ensures Fields(Terminated(xs)) == xs
  {
    if xs != [] {
      var x, rest := xs[0], xs[1..];
      assert xs == [x] + rest;
      TerminatedCons(x, rest);
      var s := Terminated(xs);
      FieldLengthBefore(x, Terminated(rest));
      assert s[..|x|] == x;
      assert s[|x| + 1..] == Terminated(rest);
      FieldsTerminated(rest);
    }
  }
}
