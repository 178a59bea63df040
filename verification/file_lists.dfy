/**
 * The list edits of the merge and image tools (removeFile, moveFile), the
 * drag-to-reorder of the sort tool's thumbnails (onDragOver), and the file
 * picker's hand-over of a selection (FileInput.emitFiles).
 */
module FileLists {

  import opened JsBuiltins

  datatype Direction = Up | Down

  // ---------------------------------------------------------------- removeFile

  /** `files.filter((_, i) => i !== idx)`: every file except the one at `idx`. */
  function RemoveAt<T>(files: seq<T>, idx: int): (r: seq<T>)
    ensures 0 <= idx < |files| ==> r == files[..idx] + files[idx + 1..]
    ensures !(0 <= idx < |files|) ==> r == files
  {
    if |files| == 0 then []
    else
      var last := |files| - 1;
      var kept := RemoveAt(files[..last], idx);
      assert files[..last] + [files[last]] == files;
      if last == idx then kept else kept + [files[last]]
  }

  /** Removing one file takes exactly that file out of the collection. */
  lemma RemoveAtMultiset<T>(files: seq<T>, idx: int)
    requires 0 <= idx < |files|
    ensures multiset(RemoveAt(files, idx)) + multiset{files[idx]} == multiset(files)
  {
    SliceOutMultiset(files, idx);
  }

  lemma SliceOutMultiset<T>(files: seq<T>, idx: nat)
    requires idx < |files|
    ensures multiset(files[..idx] + files[idx + 1..]) + multiset{files[idx]} == multiset(files)
  {
    var before, after := files[..idx], files[idx + 1..];
    assert files == before + [files[idx]] + after;
    assert multiset(files) == multiset(before) + multiset([files[idx]]) + multiset(after);
  }

  // ---------------------------------------------------------------- moveFile

  /** moveFile: copy the list into a fresh array and swap the file with its
      neighbour above or below; at the top (`Up`) or bottom (`Down`) edge the
      copy is left as it was. */
  method MoveFile<T>(files: seq<T>, idx: nat, direction: Direction) returns (newFiles: seq<T>)
    requires idx < |files|
    ensures newFiles == Moved(files, idx, direction)
  {
    var a := new T[|files|](i requires 0 <= i < |files| => files[i]);
    if direction == Up && idx > 0 {
      a[idx], a[idx - 1] := a[idx - 1], a[idx];
    } else if direction == Down && idx < a.Length - 1 {
      a[idx], a[idx + 1] := a[idx + 1], a[idx];
    }
    newFiles := a[..];
    if direction == Up && idx > 0 {
      assert newFiles == Swapped(files, idx - 1);
    } else if direction == Down && idx + 1 < |files| {
      assert newFiles == Swapped(files, idx);
    } else {
      assert newFiles == files;
    }
  }

  /** The list `moveFile` produces: the file trades places with its
      neighbour in the chosen direction, or nothing moves at an edge. It is
      always a rearrangement of the same files. */
  function Moved<T>(files: seq<T>, idx: nat, direction: Direction): (r: seq<T>)
    requires idx < |files|
    ensures |r| == |files| && multiset(r) == multiset(files)
    ensures direction == Up && idx > 0 ==>
      && r[idx - 1] == files[idx] && r[idx] == files[idx - 1]
      && forall k :: 0 <= k < |files| && k != idx - 1 && k != idx ==> r[k] == files[k]
    ensures direction == Down && idx + 1 < |files| ==>
      && r[idx] == files[idx + 1] && r[idx + 1] == files[idx]
      && forall k :: 0 <= k < |files| && k != idx && k != idx + 1 ==> r[k] == files[k]
    ensures (direction == Up && idx == 0) || (direction == Down && idx + 1 == |files|) ==> r == files
  {
    if direction == Up && idx > 0 then Swapped(files, idx - 1)
    else if direction == Down && idx + 1 < |files| then Swapped(files, idx)
    else files
  }

  /** Exchange the neighbours at `i` and `i + 1`. */
  function Swapped<T>(s: seq<T>, i: nat): (r: seq<T>)
    requires i + 1 < |s|
    ensures |r| == |s| && r[i] == s[i + 1] && r[i + 1] == s[i]
    ensures forall k :: 0 <= k < |s| && k != i && k != i + 1 ==> r[k] == s[k]
    ensures multiset(r) == multiset(s)
  {
    var r := s[i := s[i + 1]][i + 1 := s[i]];
    SwapMultiset(s, i);
    r
  }

  /** Swapping two neighbours keeps the same files. */
  lemma SwapMultiset<T>(s: seq<T>, i: nat)
    requires i + 1 < |s|
    ensures multiset(s[i := s[i + 1]][i + 1 := s[i]]) == multiset(s)
  {
    var r := s[i := s[i + 1]][i + 1 := s[i]];
    assert s == s[..i] + [s[i], s[i + 1]] + s[i + 2..];
    assert r == s[..i] + [s[i + 1], s[i]] + s[i + 2..];
  }

  /** Moving a file up and then moving it back down restores the list. */
  lemma {:induction false} MoveUpThenDown<T>(files: seq<T>, idx: nat)
    requires 0 < idx < |files|
    ensures Moved(Moved(files, idx, Up), idx - 1, Down) == files
  {
    var once := Moved(files, idx, Up);
    assert once == Swapped(files, idx - 1);
    assert |once| == |files|;
    assert Moved(once, idx - 1, Down) == Swapped(once, idx - 1);
  }

  // ---------------------------------------------------------------- onDragOver

  /** `items.splice(start, 1)`. */
  function SpliceOut<T>(items: seq<T>, start: nat): (r: seq<T>)
    requires start < |items|
    ensures |r| == |items| - 1
    ensures forall k :: 0 <= k < start ==> r[k] == items[k]
    ensures forall k :: start <= k < |r| ==> r[k] == items[k + 1]
  {
    items[..start] + items[start + 1..]
  }

  /** `items.splice(start, 0, x)`. */
  function SpliceIn<T>(items: seq<T>, start: nat, x: T): (r: seq<T>)
    requires start <= |items|
    ensures |r| == |items| + 1 && r[start] == x
    ensures forall k :: 0 <= k < start ==> r[k] == items[k]
    ensures forall k :: start < k < |r| ==> r[k] == items[k - 1]
  {
    items[..start] + [x] + items[start..]
  }

  /** Splicing an element in and taking it out again leaves the list as it was. */
  lemma SpliceInOut<T>(rest: seq<T>, to: nat, x: T)
    requires to <= |rest|
    ensures var r := SpliceIn(rest, to, x);
      |r| == |rest| + 1 && r[to] == x && RemoveAt(r, to) == rest
      && multiset(r) == multiset(rest) + multiset{x}
  {
    var r := SpliceIn(rest, to, x);
    assert r[..to] == rest[..to];
    assert r[to + 1..] == rest[to..];
    assert rest == rest[..to] + rest[to..];
  }

  /** The thumbnails after the one at `from` is dragged to `to`. */
  function Dragged<T>(items: seq<T>, from: nat, to: nat): (r: seq<T>)
    requires from < |items| && to < |items|
    ensures |r| == |items| && r[to] == items[from]
    ensures RemoveAt(r, to) == RemoveAt(items, from)
    ensures multiset(r) == multiset(items)
  {
    var rest := SpliceOut(items, from);
    var r := SpliceIn(rest, to, items[from]);
    SpliceInOut(rest, to, items[from]);
    RemoveAtMultiset(items, from);
    r
  }

  /** A list is fixed by one of its elements and what remains without it. */
  lemma DeterminedByElementAndRest<T>(a: seq<T>, b: seq<T>, i: nat)
    requires i < |a| == |b| && a[i] == b[i]
    requires RemoveAt(a, i) == RemoveAt(b, i)
    ensures a == b
  {
    var ra, rb := RemoveAt(a, i), RemoveAt(b, i);
    assert ra == a[..i] + a[i + 1..];
    assert rb == b[..i] + b[i + 1..];
    forall k | 0 <= k < |a| ensures a[k] == b[k] {
      if k < i {
        assert a[k] == ra[k] && b[k] == rb[k];
      } else if k > i {
        assert a[k] == ra[k - 1] && b[k] == rb[k - 1];
      }
    }
  }

  /** Dragging on across the grid updates `draggedItem` to the cell reached, so
      two drag-over steps amount to one drag from the first cell to the last. */
  lemma DragComposes<T>(items: seq<T>, a: nat, b: nat, c: nat)
    requires a < |items| && b < |items| && c < |items|
    ensures Dragged(Dragged(items, a, b), b, c) == Dragged(items, a, c)
  {
    var twice := Dragged(Dragged(items, a, b), b, c);
    DeterminedByElementAndRest(twice, Dragged(items, a, c), c);
  }

  /** Dragging a thumbnail back where it came from restores the grid. */
  lemma DragBack<T>(items: seq<T>, a: nat, b: nat)
    requires a < |items| && b < |items|
    ensures Dragged(Dragged(items, a, b), b, a) == items
  {
    DragComposes(items, a, b, a);
    DeterminedByElementAndRest(Dragged(items, a, a), items, a);
  }

  /** SortTool.onDragOver: with no drag under way, or over the dragged
      thumbnail itself, nothing changes; otherwise the dragged thumbnail is
      spliced out and back in at the hovered cell, which becomes the dragged one. */
  method OnDragOver<T>(thumbnails: seq<T>, draggedItem: Option<nat>, index: nat)
    returns (newThumbnails: seq<T>, newDraggedItem: Option<nat>)
    requires draggedItem.Some? ==> draggedItem.value < |thumbnails|
    requires index < |thumbnails|
    ensures draggedItem.None? || draggedItem.value == index ==>
      newThumbnails == thumbnails && newDraggedItem == draggedItem
    ensures draggedItem.Some? && draggedItem.value != index ==>
      && newDraggedItem == Some(index)
      && |newThumbnails| == |thumbnails|
      && newThumbnails[index] == thumbnails[draggedItem.value]
      && RemoveAt(newThumbnails, index) == RemoveAt(thumbnails, draggedItem.value)
      && multiset(newThumbnails) == multiset(thumbnails)
    ensures draggedItem.Some? ==> newThumbnails == Dragged(thumbnails, draggedItem.value, index)
  {
    if draggedItem.None? || draggedItem.value == index {
      if draggedItem.Some? {
        DeterminedByElementAndRest(Dragged(thumbnails, index, index), thumbnails, index);
      }
      return thumbnails, draggedItem;
    }
    var from := draggedItem.value;
    var newItems := thumbnails;
    var dragged := newItems[from];
    newItems := SpliceOut(newItems, from);
    newItems := SpliceIn(newItems, index, dragged);
    newThumbnails, newDraggedItem := newItems, Some(index);
    assert newThumbnails == Dragged(thumbnails, from, index);
  }

  // ---------------------------------------------------------------- FileInput.emitFiles

  /** FileInput.emitFiles: an empty pick emits nothing; otherwise a multi-file
      picker hands over every file and a single-file picker only the first. */
  function EmitFiles<T>(picked: seq<T>, multiple: bool): (emitted: Option<seq<T>>)
    ensures emitted.None? <==> picked == []
    ensures emitted.Some? ==>
      && |emitted.value| == (if multiple then |picked| else 1)
      && emitted.value == picked[..|emitted.value|]
  {
    if |picked| == 0 then None
    else if multiple then Some(picked)
    else Some([picked[0]])
  }
}
