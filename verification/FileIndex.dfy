/** The table of channel numbers that a directory scan fills and sorts, and the file names the
    numbers come from. */
module FileIndex {
  const MAX_NUMBER: nat := 512

  ghost predicate Sorted(a: seq<int>) {
    forall i, j :: 0 <= i <= j < |a| ==> a[i] <= a[j]
  }

  ghost predicate IsMaximum(a: seq<int>, m: int) {
    m in a && forall x :: x in a ==> x <= m
  }

  /** Rearranging by exchanges. */
  ghost predicate SameElements(a: seq<int>, b: seq<int>) {
    multiset(a) == multiset(b)
  }

  function Exchanged(a: seq<int>, i: nat, j: nat): seq<int>
    requires i < |a| && j < |a|
  {
    a[i := a[j]][j := a[i]]
  }

  lemma ExchangeKeepsElements(a: seq<int>, i: nat, j: nat)
    requires i < |a| && j < |a|
    ensures SameElements(Exchanged(a, i, j), a)
  {
  }

  ghost predicate SortedUpTo(a: seq<int>, i: nat)
    requires i <= |a|
  {
    forall k, l :: 0 <= k <= l < i ==> a[k] <= a[l]
  }

  ghost predicate NoneExceeds(a: seq<int>, m: nat, upTo: nat)
    requires m < |a| && upTo <= |a|
  {
    forall k :: 0 <= k < upTo ==> a[k] <= a[m]
  }

  /** Between rounds: the slots before i are sorted, and the last of them is a maximum. */
  ghost predicate Outer(a: seq<int>, i: nat) {
    i <= |a| && SortedUpTo(a, i) && (i > 0 ==> NoneExceeds(a, i - 1, |a|))
  }

  /** Within round i, about to look at slot j: the slots already looked at do not exceed a[i];
      the maximum is still in slot i - 1 until that has been looked at, and in slot i after. */
  ghost predicate Inner(a: seq<int>, i: nat, j: nat) {
    && i < |a| && j <= |a|
    && SortedUpTo(a, i)
    && NoneExceeds(a, i, j)
    && (i > 0 ==> NoneExceeds(a, if j < i then i - 1 else i, |a|))
  }

  lemma InnerStep(a: seq<int>, i: nat, j: nat)
    requires Inner(a, i, j) && j < |a|
    ensures Inner(if a[j] > a[i] then Exchanged(a, i, j) else a, i, j + 1)
  {
  }

  lemma RoundEnds(a: seq<int>, i: nat)
    requires Inner(a, i, |a|)
    ensures Outer(a, i + 1)
  {
  }

  method CompareAndExchange(a: array<int>, n: nat, i: nat, j: nat)
    requires i < n <= a.Length && j < n
    modifies a
    ensures a[n..] == old(a[n..]) && SameElements(a[..n], old(a[..n]))
    ensures a[..n] == if old(a[j] > a[i]) then Exchanged(old(a[..n]), i, j) else old(a[..n])
  {
    if a[j] > a[i] {
      ExchangeKeepsElements(a[..n], i, j);
      var tmp := a[i];
      a[i] := a[j];
      a[j] := tmp;
    }
  }

  /** Both loops run over all of the table; a slot is exchanged with the round's own whenever it
      is greater.  It looks like a selection of maxima but sorts ascending. */
  method Sort(a: array<int>, n: nat)
    requires n <= a.Length
    modifies a
    ensures Sorted(a[..n])
    ensures SameElements(a[..n], old(a[..n]))
    ensures a[n..] == old(a[n..])
  {
    for i := 0 to n
      invariant a[n..] == old(a[n..]) && SameElements(a[..n], old(a[..n]))
      invariant Outer(a[..n], i)
    {
      for j := 0 to n
        invariant a[n..] == old(a[n..]) && SameElements(a[..n], old(a[..n]))
        invariant Inner(a[..n], i, j)
      {
        InnerStep(a[..n], i, j);
        CompareAndExchange(a, n, i, j);
      }
      RoundEnds(a[..n], i);
    }
  }
}
