/** The IPv4 header checksum of the XDP reply against one's-complement arithmetic (section 1 of
    RFC 1071). */
module Checksum {

  const WORDS := 10
  /** Which word of the header is the checksum field. */
  const CHECK := 5

  ghost predicate AreWords(ws: seq<int>) {
    forall i :: 0 <= i < |ws| ==> 0 <= ws[i] < 65536
  }

  // ---- One's-complement sums ----------------------------------------------------------------

  /** Addition with end-around carry. */
  function OnesAdd(a: int, b: int): int {
    if a + b > 65535 then a + b - 65535 else a + b
  }

  function OnesSum(ws: seq<int>): int {
    if ws == [] then 0 else OnesAdd(OnesSum(ws[..|ws| - 1]), ws[|ws| - 1])
  }

  function Sum(ws: seq<int>): int {
    if ws == [] then 0 else Sum(ws[..|ws| - 1]) + ws[|ws| - 1]
  }

  /** The one's-complement value of a plain sum. */
  function Folded(n: nat): nat {
    if n <= 65535 then n else Folded(n - 65535)
  }

  lemma {:induction false} FoldedAdd(n: nat, w: nat)
    requires w <= 65535
    ensures OnesAdd(Folded(n), w) == Folded(n + w)
  {
    if n > 65535 {
      FoldedAdd(n - 65535, w);
    }
  }

  lemma {:induction false} FoldedCycles(n: nat, k: nat)
    requires n > 0
    ensures Folded(n + 65535 * k) == Folded(n)
  {
    if k == 0 {
    } else {
      FoldedCycles(n, k - 1);
      assert n + 65535 * k - 65535 == n + 65535 * (k - 1);
    }
  }

  lemma {:induction false} FoldedIsCongruent(n: nat) returns (k: nat)
    ensures n == Folded(n) + 65535 * k && Folded(n) <= 65535 && (Folded(n) == 0 ==> n == 0)
  {
    if n <= 65535 {
      k := 0;
    } else {
      var j := FoldedIsCongruent(n - 65535);
      k := j + 1;
    }
  }

  lemma {:induction false} SumBounds(ws: seq<int>)
    requires AreWords(ws)
    ensures 0 <= Sum(ws) <= 65535 * |ws|
  {
    if ws == [] {
    } else {
      SumBounds(ws[..|ws| - 1]);
    }
  }

  lemma {:induction false} OnesSumIsFolded(ws: seq<int>)
    requires AreWords(ws)
    ensures Sum(ws) >= 0 && OnesSum(ws) == Folded(Sum(ws))
  {
    if ws == [] {
    } else {
      OnesSumIsFolded(ws[..|ws| - 1]);
      FoldedAdd(Sum(ws[..|ws| - 1]), ws[|ws| - 1]);
    }
  }

  lemma {:induction false} SumUpdate(ws: seq<int>, i: nat, w: int)
    requires i < |ws|
    ensures Sum(ws[i := w]) == Sum(ws) - ws[i] + w
  {
    var front := ws[..|ws| - 1];
    if i == |ws| - 1 {
      assert ws[i := w][..|ws| - 1] == front;
    } else {
      SumUpdate(front, i, w);
      assert ws[i := w][..|ws| - 1] == front[i := w];
    }
  }

  // ---- Two folds are enough -----------------------------------------------------------------

  /** What two shift-and-add steps and a cast to sixteen bits make of a sum of ten words. */
  function TwoFolds(sum: nat): nat {
    var once := sum / 65536 + sum % 65536;
    (once + once / 65536) % 65536
  }

  lemma TwoFoldsFold(sum: nat)
    requires sum <= 65535 * WORDS
    ensures TwoFolds(sum) == Folded(sum)
  {
    var h, l := sum / 65536, sum % 65536;
    SecondFold(h + l);
    if sum > 0 {
      FoldedCycles(h + l, h);
      assert sum == (h + l) + 65535 * h;
    }
  }

  lemma SecondFold(once: nat)
    requires once <= 65535 + WORDS
    ensures (once + once / 65536) % 65536 == Folded(once)
  {
    assert Folded(once) == if once <= 65535 then once else once - 65535;
  }

  // ---- The checksum -------------------------------------------------------------------------

  /** Clears the checksum field and returns the complement of the sum: stored in that field it
      makes the one's-complement sum of all ten words 0xFFFF. */
  method Ipv4Checksum(p: array<int>) returns (csum: int)
    requires p.Length == 10 && AreWords(p[..])
    modifies p
    ensures p[..] == old(p[..])[5 := 0] && 0 <= csum < 65536
    ensures OnesSum(p[..][5 := csum]) == 0xFFFF
  {
    p[CHECK] := 0;
    var sum := 0;
    for i := 0 to WORDS
      invariant sum == Sum(p[..i]) && 0 <= sum <= 65535 * i
    {
      assert p[..i + 1][..i] == p[..i];
      sum := sum + p[i];
    }
    assert p[..WORDS] == p[..];
    ghost var total := sum;
    sum := sum / 65536 + sum % 65536;
    sum := sum + sum / 65536;
    csum := 65535 - sum % 65536;
    assert csum == 65535 - TwoFolds(total);
    StoredSumIsAllOnes(p[..], csum);
  }

  lemma StoredSumIsAllOnes(ws: seq<int>, csum: int)
    requires |ws| == WORDS && AreWords(ws) && ws[CHECK] == 0
    requires 0 <= Sum(ws) && csum == 65535 - TwoFolds(Sum(ws))
    ensures 0 <= csum < 65536 && OnesSum(ws[CHECK := csum]) == 0xFFFF
  {
    SumBounds(ws);
    TwoFoldsFold(Sum(ws));
    var k := FoldedIsCongruent(Sum(ws));
    SumUpdate(ws, CHECK, csum);
    OnesSumIsFolded(ws[CHECK := csum]);
    assert Sum(ws[CHECK := csum]) == 65535 + 65535 * k;
    FoldedCycles(65535, k);
  }

  /** The check singles out one value up to the two zeros of one's-complement arithmetic: any other
      word in the field makes the sum differ from 0xFFFF. */
  lemma ChecksumIsUnique(ws: seq<int>, a: int, b: int)
    requires |ws| == WORDS && AreWords(ws) && 0 <= a <= b < 65536
    requires OnesSum(ws[CHECK := a]) == OnesSum(ws[CHECK := b]) == 0xFFFF
    ensures a == b || (a == 0 && b == 65535)
  {
    OnesSumIsFolded(ws[CHECK := a]);
    OnesSumIsFolded(ws[CHECK := b]);
    SumUpdate(ws, CHECK, a);
    SumUpdate(ws, CHECK, b);
    var j := FoldedIsCongruent(Sum(ws[CHECK := a]));
    var k := FoldedIsCongruent(Sum(ws[CHECK := b]));
    assert b - a == 65535 * (k - j);
  }

  // ---- Byte order ---------------------------------------------------------------------------

  function Swapped(w: int): int {
    w % 256 * 256 + w / 256
  }

  function SwapAll(ws: seq<int>): seq<int> {
    if ws == [] then [] else SwapAll(ws[..|ws| - 1]) + [Swapped(ws[|ws| - 1])]
  }

  lemma {:induction false} SwapAllAt(ws: seq<int>)
    requires AreWords(ws)
    ensures |SwapAll(ws)| == |ws| && AreWords(SwapAll(ws))
    ensures forall i :: 0 <= i < |ws| ==> SwapAll(ws)[i] == Swapped(ws[i])
  {
    if ws == [] {
    } else {
      SwapAllAt(ws[..|ws| - 1]);
    }
  }

  /** Swapping the bytes of every word multiplies the sum by 256, up to multiples of 0xFFFF. */
  lemma {:induction false} SwappedSum(ws: seq<int>) returns (k: nat)
    requires AreWords(ws)
    ensures 0 <= Sum(SwapAll(ws)) && 256 * Sum(ws) == Sum(SwapAll(ws)) + 65535 * k
  {
    if ws == [] {
      k := 0;
    } else {
      var front, w := ws[..|ws| - 1], ws[|ws| - 1];
      var j := SwappedSum(front);
      k := j + w / 256;
      assert SwapAll(ws)[..|SwapAll(front)|] == SwapAll(front);
      assert 256 * w == Swapped(w) + 65535 * (w / 256);
    }
  }

  lemma {:induction false} ZeroSum(ws: seq<int>)
    requires AreWords(ws) && Sum(SwapAll(ws)) == 0
    ensures Sum(ws) == 0
  {
    var k := SwappedSum(ws);
    if ws == [] {
    } else {
      var front, w := ws[..|ws| - 1], ws[|ws| - 1];
      var j := SwappedSum(front);
      assert SwapAll(ws)[..|SwapAll(front)|] == SwapAll(front);
      assert Swapped(w) >= 0;
      ZeroSum(front);
    }
  }

  /** The program adds the words in the byte order of the machine; a receiver that reads them in
      network order finds 0xFFFF just the same. */
  lemma ByteOrderDoesNotMatter(ws: seq<int>)
    requires AreWords(ws) && OnesSum(ws) == 0xFFFF
    ensures OnesSum(SwapAll(ws)) == 0xFFFF
  {
    OnesSumIsFolded(ws);
    SwapAllAt(ws);
    OnesSumIsFolded(SwapAll(ws));
    var a := FoldedIsCongruent(Sum(ws));
    var b := FoldedIsCongruent(Sum(SwapAll(ws)));
    var k := SwappedSum(ws);
    if Sum(SwapAll(ws)) == 0 {
      ZeroSum(ws);
    }
    var f := Folded(Sum(SwapAll(ws)));
    assert f == 65535 * (256 * (a + 1) - k - b);
  }
}
