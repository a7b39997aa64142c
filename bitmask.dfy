/** ecu/types.h: the `__mask`, `__mask_get` and `__mask_set` macros that read
    and write a bit field of a 32-bit channel word.

    The channel is modelled as an unsigned 32-bit value. For such a value
    `chan >> shift` is `chan / 2^shift` and `x & __mask(len)` is
    `x % 2^len`, so a field of width `len` at bit `shift` is the digit
    `(chan / 2^shift) % 2^len` of `chan` in base 2. `__mask_set` keeps the
    bits of `chan` outside the field and puts the low bits of `val` inside
    it; `val << shift` and `__mask(len) << shift` drop every bit above bit
    31, so a field that overruns the word keeps only its low `32 - shift`
    bits. */
module BitMask {
  import opened Int32

  /** 2^n. */
  function Pow2(n: nat): (p: nat)
    ensures p >= 1
  {
    if n == 0 then 1 else 2 * Pow2(n - 1)
  }

  lemma {:induction false} Pow2Add(a: nat, b: nat)
    ensures Pow2(a + b) == Pow2(a) * Pow2(b)
    decreases a
  {
    if a > 0 {
      Pow2Add(a - 1, b);
      assert Pow2(a + b) == 2 * Pow2(a - 1 + b);
    }
  }

  lemma {:induction false} Pow2Monotone(a: nat, b: nat)
    requires a <= b
    ensures Pow2(a) <= Pow2(b)
    decreases b
  {
    if a < b {
      Pow2Monotone(a, b - 1);
    }
  }

  lemma Pow2Values()
    ensures Pow2(4) == 16 && Pow2(7) == 0x80 && Pow2(8) == 256
    ensures Pow2(15) == 0x8000 && Pow2(16) == 0x1_0000 && Pow2(28) == 0x1000_0000
    ensures Pow2(31) == 0x8000_0000 && Pow2(32) == TWO_32
  {
    assert Pow2(4) == 16;
    assert Pow2(7) == 0x80;
    assert Pow2(8) == 256;
    assert Pow2(15) == 0x8000;
    assert Pow2(16) == 0x1_0000;
    assert Pow2(24) == 0x100_0000;
    assert Pow2(28) == 0x1000_0000;
    assert Pow2(31) == 0x8000_0000;
  }

  /** 2^32 is 2^(32 - a) whole multiples of 2^a. */
  lemma WholeWord(a: nat)
    requires a <= 32
    ensures Pow2(32 - a) * Pow2(a) == TWO_32
  {
    Pow2Add(32 - a, a);
    Pow2Values();
  }

  lemma MulRegroup(h: int, p: int, l: int)
    ensures h * (p * l) == (h * l) * p
  {
  }

  lemma DivNonneg(n: nat, d: int)
    requires d > 0
    ensures n / d >= 0
  {
  }

  lemma MulMonotone(a: int, b: int, d: int)
    requires a <= b && d >= 0
    ensures a * d <= b * d
  {
    assert b * d - a * d == (b - a) * d;
  }

  /** Euclidean division has one quotient and one remainder. */
  lemma DivModUnique(n: int, d: int, q: int, r: int)
    requires d > 0 && 0 <= r < d && n == q * d + r
    ensures n / d == q && n % d == r
  {
    var q', r' := n / d, n % d;
    assert q * d - q' * d == r' - r;
    assert (q' + 1) * d == q' * d + d;
    assert (q + 1) * d == q * d + d;
    if q > q' {
      MulMonotone(q' + 1, q, d);
    } else if q < q' {
      MulMonotone(q + 1, q', d);
    }
  }

  /** A digit below `l` placed above `lo < p` stays below `p * l`. */
  lemma DigitBound(w: int, l: int, p: int, lo: int)
    requires 0 <= w < l && 0 <= lo < p
    ensures 0 <= w * p + lo < p * l
  {
    MulMonotone(w, l - 1, p);
    MulMonotone(0, w, p);
    assert (l - 1) * p == p * l - p;
  }

  /** __mask(len): 2^len - 1, the low `len` bits. For len = 31 the C
      expression `(1 << 31) - 1` wraps round to the same value. */
  function Mask(len: nat): (m: u32)
    requires len < 32
    ensures m + 1 == Pow2(len)
  {
    Pow2Monotone(len, 31);
    Pow2Values();
    Pow2(len) - 1
  }

  /** The width of the part of a field that lies inside the word. */
  function Width(len: nat, shift: nat): (k: nat)
    requires len < 32 && shift < 32
    ensures k <= len && shift + k <= 32
    ensures len + shift <= 32 ==> k == len
  {
    if len + shift <= 32 then len else 32 - shift
  }

  /** __mask_get(chan, len, shift): the field, moved down to bit 0. */
  function Get(chan: u32, len: nat, shift: nat): (r: u32)
    requires len < 32 && shift < 32
    ensures r < Pow2(len)
  {
    Pow2Monotone(len, 31);
    Pow2Values();
    (chan / Pow2(shift)) % Pow2(len)
  }

  /** __mask_set(chan, len, shift, val): the value assigned back to `chan`:
      the bits of `chan` above the field, the low bits of `val` in the field,
      and the bits of `chan` below it. */
  function Set(chan: u32, len: nat, shift: nat, val: u32): (r: u32)
    requires len < 32 && shift < 32
    ensures r % Pow2(shift) == chan % Pow2(shift)
  {
    var p, l := Pow2(shift), Pow2(Width(len, shift));
    SetFits(chan, Width(len, shift), shift, val);
    var h, w, lo := chan / (p * l), val % l, chan % p;
    MulRegroup(h, p, l);
    assert (h * l + w) * p == (h * l) * p + w * p;
    DivModUnique(h * (p * l) + w * p + lo, p, h * l + w, lo);
    h * (p * l) + w * p + lo
  }

  /** Splitting `n` into the digits below `p`, the next digit in base `l`,
      and the rest. */
  lemma Split(n: nat, p: nat, l: nat)
    requires p >= 1 && l >= 1
    ensures n == (n / (p * l)) * (p * l) + ((n / p) % l) * p + n % p
    ensures n / (p * l) == (n / p) / l
  {
    var h, g, lo := (n / p) / l, (n / p) % l, n % p;
    assert n / p == h * l + g;
    assert n == (h * l + g) * p + lo;
    assert n == h * (p * l) + (g * p + lo) by {
      assert (h * l + g) * p == h * (p * l) + g * p;
    }
    DigitBound(g, l, p, lo);
    DivModUnique(n, p * l, h, g * p + lo);
  }

  /** The value __mask_set produces is again a 32-bit value. */
  lemma SetFits(chan: u32, k: nat, shift: nat, val: u32)
    requires shift + k <= 32
    ensures var p, l := Pow2(shift), Pow2(k);
      0 <= (chan / (p * l)) * (p * l) + (val % l) * p + chan % p < TWO_32
  {
    var p, l := Pow2(shift), Pow2(k);
    var rest := Pow2(32 - (shift + k));
    MulMonotone(1, p, l);
    SplitWord(shift, k);
    HighDigitFits(chan, p * l, rest);
    DivNonneg(chan, p * l);
    DigitsFit(chan / (p * l), val % l, chan % p, p, l, p * l);
  }

  /** 2^32 is a whole number of fields of width `k` at bit `shift`. */
  lemma SplitWord(shift: nat, k: nat)
    requires shift + k <= 32
    ensures Pow2(32 - (shift + k)) * (Pow2(shift) * Pow2(k)) == TWO_32
  {
    Pow2Add(shift, k);
    WholeWord(shift + k);
  }

  lemma DigitsFit(h: int, w: int, lo: int, p: int, l: int, top: int)
    requires top == p * l
    requires 0 <= h && 0 <= w < l && 0 <= lo < p && (h + 1) * top <= TWO_32
    ensures 0 <= h * top + w * p + lo < TWO_32
  {
    DigitBound(w, l, p, lo);
    MulMonotone(0, h, top);
    assert (h + 1) * top == h * top + top;
  }

  /** A 32-bit value holds fewer than `rest` whole multiples of `top` when
      `rest * top` is 2^32. */
  lemma HighDigitFits(chan: u32, top: nat, rest: nat)
    requires top >= 1 && rest * top == TWO_32
    ensures (chan / top + 1) * top <= TWO_32
  {
    var h := chan / top;
    assert h * top <= chan;
    if h >= rest {
      MulMonotone(rest, h, top);
    }
    MulMonotone(h + 1, rest, top);
  }

  /** __mask_set's value as digits: the part of `chan` above the field, the
      field holding `val`'s low bits, and the part of `chan` below it. */
  lemma SetDigits(chan: u32, len: nat, shift: nat, val: u32)
    requires len < 32 && shift < 32
    ensures var p, l := Pow2(shift), Pow2(Width(len, shift));
      Set(chan, len, shift, val) == ((chan / (p * l)) * l + val % l) * p + chan % p
  {
    var k := Width(len, shift);
    var p, l := Pow2(shift), Pow2(k);
    Pow2Add(shift, k);
    MulRegroup(chan / (p * l), p, l);
  }

  /** The bits of `chan` below `shift` and above the field are left alone. */
  lemma SetFrame(chan: u32, len: nat, shift: nat, val: u32)
    requires len < 32 && shift < 32
    ensures Set(chan, len, shift, val) % Pow2(shift) == chan % Pow2(shift)
    ensures Set(chan, len, shift, val) / (Pow2(shift) * Pow2(Width(len, shift)))
         == chan / (Pow2(shift) * Pow2(Width(len, shift)))
  {
    var k := Width(len, shift);
    var p, l := Pow2(shift), Pow2(k);
    var h, w, lo := chan / (p * l), val % l, chan % p;
    var r := Set(chan, len, shift, val);
    SetDigits(chan, len, shift, val);
    DivModUnique(r, p, h * l + w, lo);
    DigitBound(w, l, p, lo);
    assert r == h * (p * l) + (w * p + lo);
    DivModUnique(r, p * l, h, w * p + lo);
  }

  /** Reading a field back after writing it gives the low `len` bits of the
      value written (`val & __mask(len)`), provided the field fits the word:
      `len + shift <= 32`, the condition the macros record only as a
      commented-out assertion. */
  lemma GetSet(chan: u32, len: nat, shift: nat, val: u32)
    requires len < 32 && shift < 32 && len + shift <= 32
    ensures Get(Set(chan, len, shift, val), len, shift) == val % Pow2(len)
  {
    var p, l := Pow2(shift), Pow2(len);
    var h, w, lo := chan / (p * l), val % l, chan % p;
    var r := Set(chan, len, shift, val);
    SetDigits(chan, len, shift, val);
    DivModUnique(r, p, h * l + w, lo);
    DivModUnique(h * l + w, l, h, w);
  }

  /** Writing back the value just read changes nothing. */
  lemma SetGet(chan: u32, len: nat, shift: nat)
    requires len < 32 && shift < 32 && len + shift <= 32
    ensures Set(chan, len, shift, Get(chan, len, shift)) == chan
  {
    var p, l := Pow2(shift), Pow2(len);
    Pow2Add(shift, len);
    Split(chan, p, l);
    var g := Get(chan, len, shift);
    DivModUnique(g, l, 0, g);
  }

  /** Writing a field twice is writing it once with the second value. */
  lemma SetSet(chan: u32, len: nat, shift: nat, v1: u32, v2: u32)
    requires len < 32 && shift < 32
    ensures Set(Set(chan, len, shift, v1), len, shift, v2) == Set(chan, len, shift, v2)
  {
    SetFrame(chan, len, shift, v1);
  }

  /** Why the field must fit the word: an 8-bit field at bit 28 keeps only
      four of the eight bits written to it. */
  lemma FieldPastTheWord()
    ensures Get(Set(0, 8, 28, 0xFF), 8, 28) == 0x0F
  {
    Pow2Values();
    assert Set(0, 8, 28, 0xFF) == 0xF000_0000;
  }
}
