/**
 A cursor that moves by eight round a table and is kept in a machine word: which
 positions a number of moves shows, exactly.
 */
module Rotation {
  const WORD: nat := 0x1_0000_0000_0000_0000

  // --------------------------------------------------------------------- remainders

  lemma QuotientIs(a: nat, b: nat, q: nat, rem: nat)
    requires a == q * b + rem && rem < b
    ensures a / b == q && a % b == rem
  {
    var d, m := a / b, a % b;
    assert a == d * b + m;
    if d != q { FarApart(d, q, b, m, rem); }
  }

  lemma FarApart(d: nat, q: nat, b: nat, m: nat, rem: nat)
    requires m < b && rem < b && d != q
    ensures d * b + m != q * b + rem
  {
    if d < q { Larger(d, q, b); } else { Larger(q, d, b); }
  }

  lemma {:induction false} Larger(a: nat, b: nat, c: nat)
    requires a < b
    ensures a * c + c <= b * c
  {
    if b == a + 1 {
    } else {
      Larger(a, b - 1, c);
      assert b * c == (b - 1) * c + c;
    }
  }

  lemma AddLen(x: nat, len: nat)
    requires len > 0
    ensures (x + len) % len == x % len
  {
    assert x + len == (x / len + 1) * len + x % len;
    QuotientIs(x + len, len, x / len + 1, x % len);
  }

  lemma {:induction false} AddLens(q: nat, len: nat, x: nat)
    requires len > 0
    ensures (q * len + x) % len == x % len
  {
    if q == 0 {
    } else {
      AddLens(q - 1, len, x);
      assert q * len + x == ((q - 1) * len + x) + len;
      AddLen((q - 1) * len + x, len);
    }
  }

  /** Taking the remainder first makes no difference. */
  lemma AddsTurns(c: nat, len: nat, i: nat)
    requires len > 0
    ensures (c % len + i) % len == (c + i) % len
  {
    AddLens(c / len, len, c % len + i);
    assert (c / len) * len + (c % len + i) == c + i;
  }

  // ------------------------------------------------------------------------- cursors

  /** The cursor after `g` moves. */
  function Cursor(g: nat): (c: nat)
    ensures c < WORD
  {
    8 * g % WORD
  }

  lemma CursorIsEven(g: nat)
    ensures Cursor(g) % 8 == 0
  {
  }

  lemma CursorMoves(g: nat)
    ensures (Cursor(g) + 8) % WORD == Cursor(g + 1)
  {
    AddsTurns(8 * g, WORD, 8);
  }

  lemma CursorAhead(g: nat, j: nat)
    requires 8 * j <= WORD
    ensures Cursor(g + j) == if Cursor(g) + 8 * j < WORD then Cursor(g) + 8 * j else Cursor(g) + 8 * j - WORD
  {
    AddsTurns(8 * g, WORD, 8 * j);
    assert Cursor(g + j) == (Cursor(g) + 8 * j) % WORD;
  }

  /** The `i`-th position shown from the cursor `c` on. */
  function At(c: nat, i: nat, len: nat): (p: nat)
    requires len > 0
    ensures p < len
  {
    (c + i) % len
  }

  ghost predicate Shows(c: nat, p: nat, len: nat)
    requires len > 0
  {
    exists i | 0 <= i < 8 :: At(c, i, len) == p
  }

  /** One of the moves `from` to `to - 1` shows position `p`. */
  ghost predicate ShownBetween(from: nat, to: nat, p: nat, len: nat)
    requires len > 0
  {
    exists g | from <= g < to :: Shows(Cursor(g), p, len)
  }

  ghost predicate ShowsAll(from: nat, to: nat, len: nat) {
    forall p | 0 <= p < len :: ShownBetween(from, to, p, len)
  }

  // ------------------------------------------------------------------------ coverage

  /** Position `x` on the tape that starts at the cursor of move `g`. */
  lemma TapeShows(g: nat, to: nat, x: nat, len: nat, p: nat)
    requires len > 0 && g <= to && 8 * (to - g) <= WORD && x % len == p
    requires Cursor(g) <= x < Cursor(g) + 8 * (to - g) && x < WORD
    ensures ShownBetween(g, to, p, len)
  {
    hide Cursor;
    var j, i := (x - Cursor(g)) / 8, (x - Cursor(g)) % 8;
    CursorAhead(g, j);
    assert At(Cursor(g + j), i, len) == p;
    assert Shows(Cursor(g + j), p, len);
  }

  lemma TapeHas(c: nat, len: nat, p: nat) returns (x: nat)
    requires p < len
    ensures c <= x < c + len && x % len == p
  {
    var q, rem := c / len, c % len;
    assert c == q * len + rem;
    if p >= rem {
      x := c + (p - rem);
      QuotientIs(x, len, q, p);
    } else {
      x := c + (p - rem) + len;
      assert x == (q + 1) * len + p;
      QuotientIs(x, len, q + 1, p);
    }
  }

  lemma UnwrappedShowsAll(g: nat, to: nat, len: nat)
    requires g <= to && 0 < len <= 8 * (to - g) && Cursor(g) + 8 * (to - g) <= WORD
    ensures ShowsAll(g, to, len)
  {
    hide Cursor, ShownBetween;
    forall p | 0 <= p < len ensures ShownBetween(g, to, p, len) {
      var x := TapeHas(Cursor(g), len, p);
      TapeShows(g, to, x, len, p);
    }
  }

  /** The cursor passes the end of its word after `w` of the `n` moves from `g` on, which
      are just enough for the table. */
  ghost predicate Wraps(g: nat, n: nat, w: nat, len: nat) {
    0 < w < n && 8 * n <= WORD && Cursor(g) + 8 * w == WORD && 0 < len <= 8 * n < len + 8
  }

  lemma AfterWrap(g: nat, n: nat, w: nat, len: nat, p: nat)
    requires Wraps(g, n, w, len) && p < len && p < 8 * (n - w)
    ensures ShownBetween(g, g + n, p, len)
  {
    hide Cursor;
    var j, i := w + p / 8, p % 8;
    CursorAhead(g, j);
    QuotientIs(p, len, 0, p);
    assert At(Cursor(g + j), i, len) == p;
    assert Shows(Cursor(g + j), p, len);
  }

  lemma BeforeWrap(g: nat, n: nat, w: nat, len: nat, p: nat)
    requires Wraps(g, n, w, len) && WORD % len <= 8 * n - len && 8 * (n - w) <= p < len
    ensures ShownBetween(g, g + n, p, len)
  {
    hide Cursor, ShownBetween;
    var q, rem := WORD / len, WORD % len;
    assert WORD == q * len + rem;
    var y := if p < rem then rem - p else rem - p + len;
    EndOfWord(len, q, rem, y, p);
    TapeShows(g, g + n, WORD - y, len, p);
  }

  /** The position `y` before the end of the word. */
  lemma EndOfWord(len: nat, q: nat, rem: nat, y: nat, p: nat)
    requires 0 < len <= WORD && WORD == q * len + rem && rem < len && p < len
    requires y == if p < rem then rem - p else rem - p + len
    ensures y <= WORD && (WORD - y) % len == p
  {
    if p < rem {
      QuotientIs(WORD - y, len, q, p);
    } else {
      assert q > 0;
      assert WORD - y == (q - 1) * len + p;
      QuotientIs(WORD - y, len, q - 1, p);
    }
  }

  /** The position that a wrap leaves out. */
  function Gap(n: nat, w: nat, len: nat): int
    requires len > 0
  {
    if WORD % len >= 8 * (n - w) then WORD % len else 8 * (n - w)
  }

  lemma GapBeforeWrap(n: nat, w: nat, len: nat, x: nat)
    requires 0 < w < n && 8 * n <= WORD && 0 < len <= 8 * n < len + 8 && WORD % len > 8 * n - len
    requires WORD - 8 * w <= x < WORD
    ensures x % len != Gap(n, w, len)
  {
    var q, rem, y := WORD / len, WORD % len, WORD - x;
    assert WORD == q * len + rem;
    if y <= rem {
      QuotientIs(x, len, q, rem - y);
    } else {
      assert q > 0;
      assert x == (q - 1) * len + (len + rem - y);
      QuotientIs(x, len, q - 1, len + rem - y);
    }
  }

  lemma GapAfterWrap(n: nat, w: nat, len: nat, x: nat)
    requires 0 < w < n && 0 < len <= 8 * n < len + 8 && x < 8 * (n - w)
    ensures x % len != Gap(n, w, len)
  {
    QuotientIs(x, len, 0, x);
  }

  lemma WrapLeavesGap(g: nat, n: nat, w: nat, len: nat)
    requires Wraps(g, n, w, len) && WORD % len > 8 * n - len
    ensures !ShowsAll(g, g + n, len)
  {
    hide Cursor, Gap;
    var to := g + n;
    assert 0 <= Gap(n, w, len) < len by { GapIsInside(n, w, len); }
    var p := Gap(n, w, len);
    forall h | g <= h < to ensures !Shows(Cursor(h), p, len) {
      CursorAhead(g, h - g);
      forall i | 0 <= i < 8 ensures At(Cursor(h), i, len) != p {
        if h - g < w { GapBeforeWrap(n, w, len, Cursor(h) + i); } else { GapAfterWrap(n, w, len, Cursor(h) + i); }
      }
    }
    assert !ShownBetween(g, to, p, len);
  }

  lemma GapIsInside(n: nat, w: nat, len: nat)
    requires 0 < w < n && 0 < len <= 8 * n < len + 8
    ensures 0 <= Gap(n, w, len) < len
  {
  }

  /** How many moves it takes to show every position. */
  function Rounds(len: nat): nat { (len + 7) / 8 }

  /** The cursor does not pass the end of its word in the middle of these moves, or the
      word is so nearly a multiple of the table that it does not matter. */
  ghost predicate NoGap(g: nat, len: nat)
    requires len > 0
  {
    Cursor(g) + 8 * Rounds(len) <= WORD || WORD % len <= 8 * Rounds(len) - len
  }

  lemma ShowsAllExactly(g: nat, len: nat)
    requires 0 < len <= 1_000_000
    ensures ShowsAll(g, g + Rounds(len), len) <==> NoGap(g, len)
  {
    hide Cursor, ShowsAll;
    var n, c := Rounds(len), Cursor(g);
    if c + 8 * n <= WORD {
      UnwrappedShowsAll(g, g + n, len);
    } else {
      CursorIsEven(g);
      var w := (WORD - c) / 8;
      assert Wraps(g, n, w, len);
      if WORD % len <= 8 * n - len { WrappedShowsAll(g, n, w, len); } else { WrapLeavesGap(g, n, w, len); }
    }
  }

  lemma WrappedShowsAll(g: nat, n: nat, w: nat, len: nat)
    requires Wraps(g, n, w, len) && WORD % len <= 8 * n - len
    ensures ShowsAll(g, g + n, len)
  {
    hide Cursor, ShownBetween, Wraps;
    var to := g + n;
    forall p | 0 <= p < len ensures ShownBetween(g, to, p, len) {
      if p < 8 * (n - w) { AfterWrap(g, n, w, len, p); } else { BeforeWrap(g, n, w, len, p); }
    }
  }

  lemma MoreShows(from: nat, to: nat, later: nat, len: nat)
    requires to <= later && ShowsAll(from, to, len)
    ensures ShowsAll(from, later, len)
  {
    hide Shows, Cursor;
    forall p | 0 <= p < len ensures ShownBetween(from, later, p, len) {
      assert ShownBetween(from, to, p, len);
    }
  }
}
