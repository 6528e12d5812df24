/** The channels that a directory scan finds, as the setup of the serial output. */
module SerialSetup {
  import opened DirectoryScan
  import opened Dmx
  import opened FileIndex
  import opened FileNames
  import opened SerialOutput
  import opened Text

  ghost predicate Distinct<T>(a: seq<T>) {
    forall i, j :: 0 <= i < j < |a| ==> a[i] != a[j]
  }

  // ---- the numbers of the names

  /** Different names have different numbers. */
  lemma SameNumberSameName(a: string, b: string)
    requires NumberOf(a).Some? && NumberOf(a) == NumberOf(b)
    ensures a == b
  {
    NumberOfName(a);
    NumberOfName(b);
    if a == "chl000.txt" || b == "chl000.txt" {
      ZeroAndOne();
    }
  }

  lemma ZeroAndOne()
    ensures NumberOf("chl000.txt") == Some(0) && NumberOf("chl001.txt") == Some(1)
  {
    assert "chl000.txt"[..3] == PREFIX && "chl000.txt"[6..] == SUFFIX;
    assert "chl001.txt"[..3] == PREFIX && "chl001.txt"[6..] == SUFFIX;
  }

  lemma {:induction false} AcceptedIff(names: seq<string>, n: int)
    ensures n in Accepted(names) <==> exists name :: name in names && NumberOf(name) == Some(n)
  {
    if names != [] {
      var front, last := names[..|names| - 1], names[|names| - 1];
      AcceptedIff(front, n);
      assert names == front + [last];
      assert forall name :: name in names <==> name in front || name == last;
    }
  }

  lemma NameAcceptedIff(names: seq<string>, name: string, n: int)
    requires NumberOf(name) == Some(n)
    ensures n in Accepted(names) <==> name in names
  {
    AcceptedIff(names, n);
    if other :| other in names && NumberOf(other) == Some(n) {
      SameNumberSameName(other, name);
    }
  }

  lemma {:induction false} AcceptedDistinct(names: seq<string>)
    requires Distinct(names)
    ensures Distinct(Accepted(names))
  {
    if names != [] {
      var front, last := names[..|names| - 1], names[|names| - 1];
      AcceptedDistinct(front);
      if NumberOf(last).Some? {
        NameAcceptedIff(front, last, NumberOf(last).value);
      }
    }
  }

  // ---- counting

  lemma DistinctWithout(a: seq<int>, i: nat)
    requires i < |a| && Distinct(a)
    ensures var b := a[..i] + a[i + 1..];
      |b| == |a| - 1 && Distinct(b) && forall x :: x in b ==> x in a && x != a[i]
  {
  }

  lemma First(a: seq<int>) returns (x: int)
    requires a != []
    ensures x in a
  {
    x := a[0];
  }

  /** There are no more different numbers than there is room for. */
  lemma {:induction false} DistinctBound(a: seq<int>, n: nat)
    requires Distinct(a) && forall x :: x in a ==> 0 <= x < n
    ensures |a| <= n
  {
    if a == [] {
    } else if n == 0 {
      var _ := First(a);
    } else if n - 1 in a {
      var i :| 0 <= i < |a| && a[i] == n - 1;
      DistinctWithout(a, i);
      DistinctBound(a[..i] + a[i + 1..], n - 1);
    } else {
      DistinctBound(a, n - 1);
    }
  }

  /** One that is missing leaves room for one less. */
  lemma MissingBound(a: seq<int>, n: nat, missing: nat)
    requires Distinct(a) && (forall x :: x in a ==> 0 <= x < n) && missing < n && missing !in a
    ensures |a| < n
  {
    DistinctBound(a + [missing], n);
  }

  lemma {:induction false} CountsOnce(a: seq<int>, x: int)
    requires Distinct(a)
    ensures multiset(a)[x] <= 1
  {
    if a != [] {
      var front, last := a[..|a| - 1], a[|a| - 1];
      CountsOnce(front, x);
      assert a == front + [last];
      assert x == last ==> x !in multiset(front);
    }
  }

  lemma CountsTwice(a: seq<int>, i: nat, j: nat)
    requires i < j < |a| && a[i] == a[j]
    ensures multiset(a)[a[i]] >= 2
  {
    assert a == a[..j] + ([a[j]] + a[j + 1..]);
    assert a[i] in multiset(a[..j]);
  }

  lemma RearrangedDistinct(a: seq<int>, b: seq<int>)
    requires SameElements(a, b) && Distinct(b)
    ensures Distinct(a)
  {
    forall i, j | 0 <= i < j < |a| ensures a[i] != a[j] {
      if a[i] == a[j] {
        CountsTwice(a, i, j);
        CountsOnce(b, a[i]);
      }
    }
  }

  // ---- the table

  lemma SameMembers(a: seq<int>, b: seq<int>, x: int)
    requires SameElements(a, b)
    ensures x in a <==> x in b
  {
    assert x in a <==> x in multiset(a);
    assert x in b <==> x in multiset(b);
  }

  /** If one of the two lowest numbers is there, then so it is in the table, or else the other is: even a full
      directory is only one number too large for it. */
  lemma LowestScanned(names: seq<string>, channels: seq<nat>)
    requires Distinct(names) && Scanned(names, channels)
    ensures 0 in channels || 1 in channels <==> 0 in Accepted(names) || 1 in Accepted(names)
  {
    var numbers, count := Accepted(names), |channels|;
    AcceptedDistinct(names);
    SameMembers(channels, numbers[..count], 0);
    SameMembers(channels, numbers[..count], 1);
    if count == |numbers| {
      assert numbers[..count] == numbers;
    } else {
      DistinctBound(numbers, MAX_NUMBER + 1);
      OneIsCut(numbers, 0);
      OneIsCut(numbers, 1);
      LowestKept(numbers);
    }
  }

  lemma OneIsCut(numbers: seq<int>, x: nat)
    requires Distinct(numbers) && (forall n :: n in numbers ==> 0 <= n <= MAX_NUMBER) && |numbers| == MAX_NUMBER + 1
    requires x <= MAX_NUMBER
    ensures x in numbers
  {
    if x !in numbers {
      MissingBound(numbers, MAX_NUMBER + 1, x);
    }
  }

  lemma LowestKept(numbers: seq<int>)
    requires 0 in numbers && 1 in numbers && |numbers| == MAX_NUMBER + 1
    ensures 0 in numbers[..MAX_NUMBER] || 1 in numbers[..MAX_NUMBER]
  {
  }

  /** The scanned channels meet what the output asserts of them exactly if the directory has neither of the two
      files that the name check accepts and the assertion does not. */
  lemma ScannedIsValidIff(names: seq<string>, channels: seq<nat>, tables: seq<Table>)
    requires Distinct(names) && Scanned(names, channels) && |tables| == |channels|
    ensures ValidSetup(Setup(channels, tables)) <==> "chl000.txt" !in names && "chl001.txt" !in names
  {
    ZeroAndOne();
    NameAcceptedIff(names, "chl000.txt", 0);
    NameAcceptedIff(names, "chl001.txt", 1);
    LowestScanned(names, channels);
    ScannedAscend(names, channels);
    if 0 in channels {
      var i :| 0 <= i < |channels| && channels[i] == 0;
    }
    if 1 in channels {
      var i :| 0 <= i < |channels| && channels[i] == 1;
    }
  }

  lemma ScannedAscend(names: seq<string>, channels: seq<nat>)
    requires Distinct(names) && Scanned(names, channels)
    ensures forall i, j :: 0 <= i < j < |channels| ==> channels[i] < channels[j]
    ensures forall i :: 0 <= i < |channels| ==> channels[i] <= UNIVERSE_SIZE
  {
    var numbers, count := Accepted(names), |channels|;
    AcceptedDistinct(names);
    RearrangedDistinct(channels, numbers[..count]);
    forall i | 0 <= i < |channels| ensures channels[i] <= UNIVERSE_SIZE {
      SameMembers(channels, numbers[..count], channels[i]);
      assert channels[i] in numbers;
    }
  }
}
