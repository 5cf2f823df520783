/** How many pieces of at most c cover n: counted one by one, and as the quotient rounded up. */
module Ceiling {

  function Pieces(n: nat, c: nat): nat
    requires c > 0
  {
    if n == 0 then 0 else if n <= c then 1 else 1 + Pieces(n - c, c)
  }

  lemma DivUnique(x: int, c: int, q: int, r: int)
    requires c > 0 && x == c * q + r && 0 <= r < c
    ensures x / c == q
  {
    var d := x / c - q;
    assert c * d == r - x % c;
    assert d >= 1 ==> c * d >= c;
    assert d <= -1 ==> c * d <= -c;
  }

  lemma {:induction false} PiecesIsCeiling(n: nat, c: nat)
    requires c > 0
    ensures Pieces(n, c) == (n + c - 1) / c
  {
    if n == 0 {
      DivUnique(c - 1, c, 0, c - 1);
    } else if n <= c {
      DivUnique(n + c - 1, c, 1, n - 1);
    } else {
      PiecesIsCeiling(n - c, c);
      var q, r := (n - 1) / c, (n - 1) % c;
      assert c * (q + 1) == c * q + c;
      DivUnique(n + c - 1, c, q + 1, r);
    }
  }
}
