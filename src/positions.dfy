/**
 * Squares of the 8x8 board (Position.java).  A position is a value: the
 * source never shares a Position and then mutates it, so setRow/setCol are
 * ordinary datatype updates `p.(row := r)`.
 */
module Positions {

  datatype Pos = Pos(row: int, col: int) {

    /** isValid: inside the board. */
    predicate IsValid() {
      0 <= row < 8 && 0 <= col < 8
    }

    /** equals: coordinate-wise equality. */
    predicate Equals(other: Pos)
      ensures Equals(other) <==> this == other
    {
      row == other.row && col == other.col
    }

    /** hashCode: row * 8 + col, also the index of the square in a board snapshot. */
    function HashCode(): int {
      row * 8 + col
    }

    /** toString: "(" + row + ", " + col + ")". */
    function ToString(): string {
      "(" + IntToString(row) + ", " + IntToString(col) + ")"
    }
  }

  /** The square with hash code k, the inverse of HashCode on valid squares. */
  function SquareOf(k: int): (p: Pos)
    requires 0 <= k < 64
    ensures p.IsValid() && p.HashCode() == k
  {
    Pos(k / 8, k % 8)
  }

  lemma HashCodeRange(p: Pos)
    requires p.IsValid()
    ensures 0 <= p.HashCode() < 64
    ensures SquareOf(p.HashCode()) == p
  {
  }

  /** On the board, hashCode is injective, so it agrees with equals in both directions. */
  lemma HashCodeInjective(p: Pos, q: Pos)
    requires p.IsValid() && q.IsValid()
    ensures p.HashCode() == q.HashCode() <==> p.Equals(q)
  {
    HashCodeRange(p);
    HashCodeRange(q);
  }

  // ---- Java's decimal rendering of an int ----

  function DigitChar(d: int): char
    requires 0 <= d < 10
  {
    "0123456789"[d]
  }

  predicate IsDigit(ch: char) {
    '0' <= ch <= '9'
  }

  function NatToString(n: nat): (s: string)
    ensures |s| > 0
    decreases n
  {
    if n < 10 then [DigitChar(n)] else NatToString(n / 10) + [DigitChar(n % 10)]
  }

  function IntToString(i: int): string {
    if i < 0 then "-" + NatToString(-i) else NatToString(i)
  }

  /** Reading a string of decimal digits back as a number. */
  function DigitsValue(s: string): int
    requires forall k | 0 <= k < |s| :: IsDigit(s[k])
  {
    if s == [] then 0 else DigitsValue(s[..|s| - 1]) * 10 + (s[|s| - 1] as int - '0' as int)
  }

  lemma {:induction false} NatToStringDigits(n: nat)
    ensures forall k | 0 <= k < |NatToString(n)| :: IsDigit(NatToString(n)[k])
    decreases n
  {
    if n >= 10 {
      NatToStringDigits(n / 10);
    }
  }

  /** NatToString is a decimal encoding: reading its digits back gives n. */
  lemma {:induction false} NatToStringRoundTrip(n: nat)
    ensures forall k | 0 <= k < |NatToString(n)| :: IsDigit(NatToString(n)[k])
    ensures DigitsValue(NatToString(n)) == n
    decreases n
  {
    NatToStringDigits(n);
    if n >= 10 {
      NatToStringRoundTrip(n / 10);
      var s := NatToString(n);
      assert s[..|s| - 1] == NatToString(n / 10);
    }
  }

  /** A square on the board prints as the six characters "(r, c)". */
  lemma ValidToString(p: Pos)
    requires p.IsValid()
    ensures p.ToString() == ['(', DigitChar(p.row), ',', ' ', DigitChar(p.col), ')']
  {
  }

  /** toString is injective on the board. */
  lemma ToStringInjective(p: Pos, q: Pos)
    requires p.IsValid() && q.IsValid()
    ensures p.ToString() == q.ToString() <==> p == q
  {
    ValidToString(p);
    ValidToString(q);
    if p.ToString() == q.ToString() {
      assert p.ToString()[1] == q.ToString()[1];
      assert p.ToString()[4] == q.ToString()[4];
    }
  }
}
