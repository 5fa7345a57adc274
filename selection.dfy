/** The list of files chosen for sending, and the two edits the client makes
    to it: appending newly picked files and deleting the file at a position. */
module Selection {

  /** Adding picked files: the new files follow the existing ones, in the
      order they were picked. */
  function WithAdded<T>(prev: seq<T>, files: seq<T>): (r: seq<T>)
    ensures |r| == |prev| + |files|
    ensures forall i :: 0 <= i < |prev| ==> r[i] == prev[i]
    ensures forall j :: 0 <= j < |files| ==> r[|prev| + j] == files[j]
  {
    prev + files
  }

  /** Deleting by position, written as the filter the client applies: keep
      every element whose position differs from `index`. Exactly one element
      goes when `index` is a position of the list, and none otherwise. */
  function WithoutIndex<T>(prev: seq<T>, index: int): (r: seq<T>)
    ensures |r| == if 0 <= index < |prev| then |prev| - 1 else |prev|
  {
    if prev == [] then []
    else
      var last := |prev| - 1;
      WithoutIndex(prev[..last], index) + (if last != index then [prev[last]] else [])
  }

  /** Deleting at a position of the list removes exactly that element and
      keeps the others in order; any other index leaves the list unchanged. */
  lemma {:induction false} WithoutIndexRemovesOne<T>(prev: seq<T>, index: int)
    ensures WithoutIndex(prev, index)
            == if 0 <= index < |prev| then prev[..index] + prev[index + 1..] else prev
  {
    if prev != [] {
      var last := |prev| - 1;
      var init := prev[..last];
      WithoutIndexRemovesOne(init, index);
      if index == last {
        assert prev[..index] == init;
        assert prev[index + 1..] == [];
      } else if 0 <= index < last {
        assert init[..index] == prev[..index];
        assert init[index + 1..] + [prev[last]] == prev[index + 1..];
      } else {
        assert init + [prev[last]] == prev;
      }
    }
  }

  /** Deleting the file just added at the end restores the previous list. */
  lemma DeleteUndoesAdd<T>(prev: seq<T>, file: T)
    ensures WithoutIndex(WithAdded(prev, [file]), |prev|) == prev
  {
    WithoutIndexRemovesOne(WithAdded(prev, [file]), |prev|);
    assert WithAdded(prev, [file])[..|prev|] == prev;
  }
}
