/** The table of entries (src/renderer/components/FileList.tsx): the
    directories-first ordering applied in place to the entries, the unit
    chosen for a size, and what a click on a row or on its delete button does. */
module FileList {
  import opened Types

  /** A comparison in the style of `localeCompare` that is a total preorder:
      the sign flips when the arguments are swapped, and "not after" chains. */
  ghost predicate TotalPreorder<T(!new)>(cmp: (T, T) -> int) {
    && (forall x, y :: cmp(x, y) > 0 <==> cmp(y, x) < 0)
    && (forall x, y, z :: cmp(x, y) <= 0 && cmp(y, z) <= 0 ==> cmp(x, z) <= 0)
  }

  /** The sort comparator: directories before everything else, and within
      one kind the name order. */
  function Compare(a: FileInfo, b: FileInfo, nameOrder: (string, string) -> int): (c: int)
    ensures a.isDirectory && !b.isDirectory ==> c < 0
    ensures !a.isDirectory && b.isDirectory ==> c > 0
    ensures a.isDirectory == b.isDirectory ==> c == nameOrder(a.name, b.name)
  {
    if a.isDirectory && !b.isDirectory then -1
    else if !a.isDirectory && b.isDirectory then 1
    else nameOrder(a.name, b.name)
  }

  /** The comparator's sign flips with its arguments whenever the name
      order's does. */
  lemma CompareFlips(a: FileInfo, b: FileInfo, nameOrder: (string, string) -> int)
    requires TotalPreorder(nameOrder)
    ensures Compare(a, b, nameOrder) > 0 <==> Compare(b, a, nameOrder) < 0
  {
  }

  /** "Not after" chains for the comparator whenever it does for the name
      order. */
  lemma CompareChains(a: FileInfo, b: FileInfo, c: FileInfo, nameOrder: (string, string) -> int)
    requires TotalPreorder(nameOrder)
    requires Compare(a, b, nameOrder) <= 0 && Compare(b, c, nameOrder) <= 0
    ensures Compare(a, c, nameOrder) <= 0
  {
  }

  ghost predicate Sorted(s: seq<FileInfo>, nameOrder: (string, string) -> int) {
    forall i, j :: 0 <= i < j < |s| ==> Compare(s[i], s[j], nameOrder) <= 0
  }

  /** In a sorted table every directory comes before every other entry, and
      entries of one kind follow the name order. */
  lemma SortedMeansDirectoriesFirst(s: seq<FileInfo>, nameOrder: (string, string) -> int)
    requires Sorted(s, nameOrder)
    ensures forall i, j :: 0 <= i < j < |s| && s[j].isDirectory ==> s[i].isDirectory
    ensures forall i, j :: 0 <= i < j < |s| && s[i].isDirectory == s[j].isDirectory ==>
      nameOrder(s[i].name, s[j].name) <= 0
  {
    forall i, j | 0 <= i < j < |s| && s[j].isDirectory
      ensures s[i].isDirectory
    {
      assert Compare(s[i], s[j], nameOrder) <= 0;
    }
  }

  /** The first `k` entries are in order. */
  ghost predicate SortedPrefix(s: seq<FileInfo>, k: int, nameOrder: (string, string) -> int)
    requires 0 <= k <= |s|
  {
    forall p, q :: 0 <= p < q < k ==> Compare(s[p], s[q], nameOrder) <= 0
  }

  /** `files.sort(comparator)`: reorders the array it is given, in place,
      into a sorted permutation of its entries. It is an insertion sort that
      moves an entry only past neighbours that compare strictly after it. */
  method SortFiles(files: array<FileInfo>, nameOrder: (string, string) -> int)
    requires TotalPreorder(nameOrder)
    modifies files
    ensures multiset(files[..]) == multiset(old(files[..]))
    ensures Sorted(files[..], nameOrder)
    ensures forall i, j :: 0 <= i < j < files.Length && files[j].isDirectory ==> files[i].isDirectory
  {
    var i := 0;
    while i < files.Length
      invariant 0 <= i <= files.Length
      invariant multiset(files[..]) == multiset(old(files[..]))
      invariant SortedPrefix(files[..], i, nameOrder)
    {
      InsertIntoPrefix(files, i, nameOrder);
      i := i + 1;
    }
    SortedMeansDirectoriesFirst(files[..], nameOrder);
  }

  /** The invariant of the insertion: the first `i + 1` entries are in
      order except for the one at `j`, which is not after any entry to its
      right. */
  ghost predicate Inserting(s: seq<FileInfo>, i: int, j: int, nameOrder: (string, string) -> int)
    requires 0 <= j <= i < |s|
  {
    && (forall p, q :: 0 <= p < q <= i && p != j && q != j ==> Compare(s[p], s[q], nameOrder) <= 0)
    && (forall q :: j < q <= i ==> Compare(s[j], s[q], nameOrder) <= 0)
  }

  /** Swapping the entry at `j` with a left neighbour that compares after it
      moves the gap one place left. */
  lemma SwapKeepsInserting(s: seq<FileInfo>, i: int, j: int, nameOrder: (string, string) -> int)
    requires TotalPreorder(nameOrder)
    requires 0 < j <= i < |s| && Inserting(s, i, j, nameOrder)
    requires Compare(s[j - 1], s[j], nameOrder) > 0
    ensures Inserting(s[j - 1 := s[j]][j := s[j - 1]], i, j - 1, nameOrder)
  {
    CompareFlips(s[j - 1], s[j], nameOrder);
  }

  /** When the entry at `j` is not before its left neighbour, the first
      `i + 1` entries are in order. */
  lemma InsertedIsSorted(s: seq<FileInfo>, i: int, j: int, nameOrder: (string, string) -> int)
    requires TotalPreorder(nameOrder)
    requires 0 <= j <= i < |s| && Inserting(s, i, j, nameOrder)
    requires j > 0 ==> Compare(s[j - 1], s[j], nameOrder) <= 0
    ensures SortedPrefix(s, i + 1, nameOrder)
  {
    forall p, q | 0 <= p < q <= i
      ensures Compare(s[p], s[q], nameOrder) <= 0
    {
      if q == j && p < j - 1 {
        CompareChains(s[p], s[j - 1], s[j], nameOrder);
      }
    }
  }

  /** Moves `files[i]` left past every entry that compares after it, so the
      first `i + 1` entries end up in order. */
  method InsertIntoPrefix(files: array<FileInfo>, i: int, nameOrder: (string, string) -> int)
    requires TotalPreorder(nameOrder)
    requires 0 <= i < files.Length
    requires SortedPrefix(files[..], i, nameOrder)
    modifies files
    ensures multiset(files[..]) == multiset(old(files[..]))
    ensures SortedPrefix(files[..], i + 1, nameOrder)
  {
    var j := i;
    assert Inserting(files[..], i, j, nameOrder);
    while j > 0 && Compare(files[j - 1], files[j], nameOrder) > 0
      invariant 0 <= j <= i
      invariant multiset(files[..]) == multiset(old(files[..]))
      invariant Inserting(files[..], i, j, nameOrder)
    {
      ghost var before := files[..];
      SwapKeepsInserting(before, i, j, nameOrder);
      files[j - 1], files[j] := files[j], files[j - 1];
      assert files[..] == before[j - 1 := before[j]][j := before[j - 1]];
      j := j - 1;
    }
    InsertedIsSorted(files[..], i, j, nameOrder);
  }

  const Units: seq<string> := ["B", "KB", "MB", "GB", "TB"]

  function Pow1024(k: nat): (p: nat)
    ensures p >= 1
  {
    if k == 0 then 1 else 1024 * Pow1024(k - 1)
  }

  /** The loop of `formatFileSize`: divide by 1024 while the size is at least
      1024 and a larger unit is left. The size is exact: dividing by a power
      of two loses nothing in binary floating point. */
  method FormatFileSize(bytes: nat) returns (size: real, unitIndex: nat, unit: string)
    ensures unitIndex < |Units| && unit == Units[unitIndex]
    ensures size * Pow1024(unitIndex) as real == bytes as real
    ensures unitIndex < |Units| - 1 ==> bytes < Pow1024(unitIndex + 1)
    ensures unitIndex >= 1 ==> bytes >= Pow1024(unitIndex)
    ensures bytes < 1024 ==> unit == "B"
  {
    size := bytes as real;
    unitIndex := 0;
    while size >= 1024.0 && unitIndex < |Units| - 1
      invariant unitIndex < |Units|
      invariant size * Pow1024(unitIndex) as real == bytes as real
      invariant unitIndex >= 1 ==> bytes >= Pow1024(unitIndex)
    {
      ScaleStep(size, unitIndex, bytes);
      size := size / 1024.0;
      unitIndex := unitIndex + 1;
    }
    if unitIndex < |Units| - 1 {
      BelowNextUnit(size, unitIndex, bytes);
    }
    unit := Units[unitIndex];
  }

  /** One step of the loop keeps `size * 1024^k` equal to `bytes`, and a
      size of at least 1024 means `bytes` reaches the next power. */
  lemma ScaleStep(size: real, k: nat, bytes: nat)
    requires size * Pow1024(k) as real == bytes as real && size >= 1024.0
    ensures (size / 1024.0) * Pow1024(k + 1) as real == bytes as real
    ensures bytes >= Pow1024(k + 1)
  {
    var p := Pow1024(k) as real;
    assert Pow1024(k + 1) as real == 1024.0 * p;
    assert (size / 1024.0) * (1024.0 * p) == size * p;
    assert (size - 1024.0) * p >= 0.0;
    assert size * p >= 1024.0 * p;
  }

  /** A size below 1024 at the exit means `bytes` is below the next power. */
  lemma BelowNextUnit(size: real, k: nat, bytes: nat)
    requires size * Pow1024(k) as real == bytes as real && size < 1024.0
    ensures bytes < Pow1024(k + 1)
  {
    var p := Pow1024(k) as real;
    var d := 1024.0 - size;
    assert d > 0.0 && p >= 1.0;
    assert d * p >= d * 1.0;
    assert 1024.0 * p - size * p == d * p;
    assert d * p > 0.0;
    assert size * p < 1024.0 * p;
    assert bytes as real == size * p;
    assert Pow1024(k + 1) as real == 1024.0 * p;
  }

  /** `handleFileClick`: a directory is opened with its own path; a click on
      anything else does nothing. */
  function HandleFileClick(file: FileInfo): (target: Option<string>)
    ensures target.Some? <==> file.isDirectory
    ensures target.Some? ==> target.value == file.path
  {
    if file.isDirectory then Some(file.path) else None
  }

  /** `handleDeleteClick`: `onDelete(file)` only when the confirmation
      answered yes. */
  function HandleDeleteClick(file: FileInfo, confirmed: bool): (deleted: Option<FileInfo>)
    ensures deleted.Some? <==> confirmed
    ensures deleted.Some? ==> deleted.value == file
  {
    if confirmed then Some(file) else None
  }
}
