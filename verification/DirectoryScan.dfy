/** Scanning the directory: the table of channels that have a file. */
module DirectoryScan {
  import opened FileIndex
  import opened FileNames
  import opened Text

  /** The numbers of the accepted names, in directory order. */
  function Accepted(names: seq<string>): (numbers: seq<int>)
    ensures forall n :: n in numbers ==> 0 <= n <= MAX_NUMBER
  {
    if names == [] then []
    else
      var n := |names| - 1;
      Accepted(names[..n]) + match NumberOf(names[n]) case Some(number) => [number] case None => []
  }

  /** Collects the numbers of the accepted names, as many as the table holds. */
  method Collect(names: seq<string>, table: array<int>) returns (count: nat)
    requires table.Length == MAX_NUMBER
    modifies table
    ensures count == (if |Accepted(names)| < MAX_NUMBER then |Accepted(names)| else MAX_NUMBER)
    ensures table[..count] == Accepted(names)[..count]
  {
    count := 0;
    var i := 0;
    while i < |names| && count < MAX_NUMBER
      invariant 0 <= i <= |names| && count <= MAX_NUMBER
      invariant count == |Accepted(names[..i])| && table[..count] == Accepted(names[..i])
    {
      var number := CheckFileName(names[i]);
      AcceptedNext(names, i);
      if number.Some? {
        table[count] := number.value;
        count := count + 1;
      }
      i := i + 1;
    }
    AcceptedPrefix(names, i);
    assert names[..|names|] == names;
  }

  lemma AcceptedNext(names: seq<string>, i: nat)
    requires i < |names|
    ensures Accepted(names[..i + 1])
         == Accepted(names[..i]) + match NumberOf(names[i]) case Some(number) => [number] case None => []
  {
    assert names[..i + 1][..i] == names[..i];
  }

  /** What a scan leaves in its table: the numbers of the names, sorted, as many as there is room for. */
  ghost predicate Scanned(names: seq<string>, table: seq<int>) {
    var numbers := Accepted(names);
    var count := if |numbers| < MAX_NUMBER then |numbers| else MAX_NUMBER;
    |table| == count && Sorted(table) && SameElements(table, numbers[..count])
  }

  /** Scans a directory that can be opened: collects at most 512 numbers, sorts them and marks the rest of the
      table unused. The last slot is the greatest channel; with no file at all it is the word in front of the
      table, cut to 16 bits. */
  method ScanDirectory(directory: Option<seq<string>>, front: int, table: array<int>)
    returns (count: nat, lastSlot: Option<int>)
    requires table.Length == MAX_NUMBER
    modifies table
    ensures forall i :: count <= i < MAX_NUMBER ==> table[i] == -1
    ensures directory.None? ==> count == 0 && lastSlot.None?
    ensures directory.Some? ==>
      && var numbers := Accepted(directory.value);
      && count <= MAX_NUMBER && Scanned(directory.value, table[..count])
      && lastSlot.Some? && if count == 0 then lastSlot.value == front % 0x1_0000 else IsMaximum(numbers[..count], lastSlot.value)
  {
    if directory.None? {
      for i := 0 to MAX_NUMBER
        invariant forall j :: 0 <= j < i ==> table[j] == -1
      {
        table[i] := -1;
      }
      return 0, None;
    }
    count := Collect(directory.value, table);
    Sort(table, count);
    ghost var sorted := table[..count];
    lastSlot := Some((if count == 0 then front else table[count - 1]) % 0x1_0000);
    for k := count to MAX_NUMBER
      invariant table[..count] == sorted
      invariant forall j :: count <= j < k ==> table[j] == -1
    {
      table[k] := -1;
    }
    if count > 0 {
      LastIsMaximum(sorted, Accepted(directory.value)[..count]);
      LastFits(directory.value, count, sorted[count - 1]);
    }
  }

  /** No channel number is cut by the 16 bits. */
  lemma LastFits(names: seq<string>, count: nat, last: int)
    requires count <= |Accepted(names)| && last in Accepted(names)[..count]
    ensures last % 0x1_0000 == last
  {
    assert last in Accepted(names);
  }

  lemma {:induction false} AcceptedPrefix(names: seq<string>, i: nat)
    requires i <= |names|
    ensures |Accepted(names[..i])| <= |Accepted(names)| && Accepted(names)[..|Accepted(names[..i])|] == Accepted(names[..i])
    decreases |names|
  {
    if i == |names| {
      assert names[..i] == names;
    } else {
      var n := |names| - 1;
      AcceptedPrefix(names[..n], i);
      assert names[..n][..i] == names[..i];
    }
  }

  lemma LastIsMaximum(sorted: seq<int>, a: seq<int>)
    requires Sorted(sorted) && SameElements(sorted, a) && sorted != []
    ensures IsMaximum(a, sorted[|sorted| - 1])
  {
    var m := sorted[|sorted| - 1];
    assert m in multiset(sorted);
    assert m in a;
    forall x | x in a ensures x <= m {
      assert x in multiset(a);
      assert x in sorted;
    }
  }
}
