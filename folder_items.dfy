/** The folder-compare side of the main window (FileDiff/MainWindow.xaml.cs):
    the list of files worth visiting, gathered from the right-hand tree in
    pre-order, and the next-file / previous-file commands that step
    through it. */
module FolderItems {
  import opened Wrappers
  import opened TextStates

  /** A node of a compared folder tree. Nodes are values here; within one
      tree two nodes never have the same path, so value equality stands for
      the application's reference equality. */
  datatype FileItem = FileItem(path: string, isFolder: bool, state: TextState, children: seq<FileItem>)

  /** All nodes of a forest, each node before its children, siblings in
      order. */
  function PreOrder(forest: seq<FileItem>): seq<FileItem>
    decreases forest
  {
    if forest == [] then []
    else [forest[0]] + PreOrder(forest[0].children) + PreOrder(forest[1..])
  }

  /** The items the folder walk keeps: files whose contents differ, and
      the file selected in the left-hand tree. */
  predicate Wanted(item: FileItem, leftSelected: Option<FileItem>) {
    (!item.isFolder && item.state == PartialMatch) || leftSelected == Some(item)
  }

  function Filter(s: seq<FileItem>, leftSelected: Option<FileItem>): seq<FileItem> {
    if s == [] then []
    else (if Wanted(s[0], leftSelected) then [s[0]] else []) + Filter(s[1..], leftSelected)
  }

  lemma {:induction false} FilterConcat(a: seq<FileItem>, b: seq<FileItem>, leftSelected: Option<FileItem>)
    ensures Filter(a + b, leftSelected) == Filter(a, leftSelected) + Filter(b, leftSelected)
  {
    if a == [] {
      assert a + b == b;
    } else {
      var own := if Wanted(a[0], leftSelected) then [a[0]] else [];
      assert (a + b)[0] == a[0];
      assert (a + b)[1..] == a[1..] + b;
      FilterConcat(a[1..], b, leftSelected);
      assert Filter(a, leftSelected) == own + Filter(a[1..], leftSelected);
      assert Filter(a + b, leftSelected) == own + (Filter(a[1..], leftSelected) + Filter(b, leftSelected));
    }
  }

  /** An item is kept exactly when it occurs in the input and is wanted. */
  lemma {:induction false} FilterMembers(s: seq<FileItem>, leftSelected: Option<FileItem>, x: FileItem)
    ensures x in Filter(s, leftSelected) <==> x in s && Wanted(x, leftSelected)
  {
    if s != [] {
      FilterMembers(s[1..], leftSelected, x);
      assert s == [s[0]] + s[1..];
    }
  }

  lemma {:induction false} PreOrderConcat(a: seq<FileItem>, b: seq<FileItem>)
    ensures PreOrder(a + b) == PreOrder(a) + PreOrder(b)
    decreases a
  {
    if a == [] {
      assert a + b == b;
    } else {
      assert (a + b)[0] == a[0];
      assert (a + b)[1..] == a[1..] + b;
      PreOrderConcat(a[1..], b);
    }
  }

  lemma PreOrderSnoc(a: seq<FileItem>, x: FileItem)
    ensures PreOrder(a + [x]) == PreOrder(a) + [x] + PreOrder(x.children)
  {
    PreOrderConcat(a, [x]);
    assert [x][1..] == [];
  }

  lemma FilterSingleton(x: FileItem, leftSelected: Option<FileItem>)
    ensures Filter([x], leftSelected) == if Wanted(x, leftSelected) then [x] else []
  {
    assert [x][1..] == [];
  }

  /** One more root: its own entry, then its subtree, after the earlier
      roots' items. */
  lemma FilterPreOrderSnoc(done: seq<FileItem>, x: FileItem, leftSelected: Option<FileItem>)
    ensures Filter(PreOrder(done + [x]), leftSelected)
      == Filter(PreOrder(done), leftSelected)
         + (if Wanted(x, leftSelected) then [x] else [])
         + Filter(PreOrder(x.children), leftSelected)
  {
    var p, c := PreOrder(done), PreOrder(x.children);
    PreOrderSnoc(done, x);
    FilterConcat(p + [x], c, leftSelected);
    FilterConcat(p, [x], leftSelected);
    FilterSingleton(x, leftSelected);
  }

  /** Appending three pieces one after the other, in two moves. Stated on its
      own so that `GatherStep` needs only this one instance of sequence
      associativity, which keeps its proof cheap. */
  lemma AppendInTwoMoves(items: seq<FileItem>, a: seq<FileItem>, own: seq<FileItem>, b: seq<FileItem>,
                         before: seq<FileItem>, mid: seq<FileItem>, after: seq<FileItem>)
    requires before == items + a && mid == before + own && after == mid + b
    ensures after == items + (a + own + b)
  {
  }

  /** One step of the folder walk: the root's own entry, when wanted, and
      then its subtree's items extend what the earlier roots gave. */
  lemma GatherStep(items: seq<FileItem>, done: seq<FileItem>, x: FileItem, leftSelected: Option<FileItem>,
                   before: seq<FileItem>, mid: seq<FileItem>, after: seq<FileItem>)
    requires before == items + Filter(PreOrder(done), leftSelected)
    requires mid == before + (if Wanted(x, leftSelected) then [x] else [])
    requires after == mid + Filter(PreOrder(x.children), leftSelected)
    ensures after == items + Filter(PreOrder(done + [x]), leftSelected)
  {
    FilterPreOrderSnoc(done, x, leftSelected);
    AppendInTwoMoves(items, Filter(PreOrder(done), leftSelected), if Wanted(x, leftSelected) then [x] else [],
                     Filter(PreOrder(x.children), leftSelected), before, mid, after);
  }

  /** `GetFolderDiffItems`: appends to `items`, in pre-order over the
      forest, every node that is a differing file or the left-hand
      selection; what `items` already held stays in front. */
  method GetFolderDiffItems(parent: seq<FileItem>, items: seq<FileItem>, leftSelected: Option<FileItem>)
    returns (result: seq<FileItem>)
    ensures result == items + Filter(PreOrder(parent), leftSelected)
    decreases parent
  {
    result := items;
    for i := 0 to |parent|
      invariant result == items + Filter(PreOrder(parent[..i]), leftSelected)
    {
      var fileItem := parent[i];
      ghost var before := result;
      if (!fileItem.isFolder && fileItem.state == PartialMatch) || leftSelected == Some(fileItem) {
        result := result + [fileItem];
      }
      ghost var mid := result;
      result := GetFolderDiffItems(fileItem.children, result, leftSelected);
      GatherStep(items, parent[..i], fileItem, leftSelected, before, mid, result);
      assert parent[..i + 1] == parent[..i] + [fileItem];
    }
    assert parent[..|parent|] == parent;
  }

  /** A node is gathered exactly when it occurs somewhere in the forest and
      is wanted. */
  lemma GatheredItems(parent: seq<FileItem>, leftSelected: Option<FileItem>, x: FileItem)
    ensures x in Filter(PreOrder(parent), leftSelected) <==> x in PreOrder(parent) && Wanted(x, leftSelected)
  {
    FilterMembers(PreOrder(parent), leftSelected, x);
  }

  /** `List.IndexOf`: the first position of the item, -1 when it is absent
      (or when nothing is selected). */
  function IndexOf(items: seq<FileItem>, x: Option<FileItem>): (r: int)
    ensures -1 <= r < |items|
    ensures r == -1 <==> x.None? || x.value !in items
    ensures r >= 0 ==> x == Some(items[r]) && x.value !in items[..r]
  {
    if x.None? || items == [] then -1
    else if items[0] == x.value then 0
    else
      var k := IndexOf(items[1..], x);
      if k == -1 then -1
      else
        assert items[..k + 1] == [items[0]] + items[1..][..k];
        k + 1
  }

  predicate Distinct(items: seq<FileItem>) {
    forall i, j :: 0 <= i < j < |items| ==> items[i] != items[j]
  }

  lemma IndexOfDistinct(items: seq<FileItem>, k: int)
    requires Distinct(items) && 0 <= k < |items|
    ensures IndexOf(items, Some(items[k])) == k
  {
    var r := IndexOf(items, Some(items[k]));
    assert items[r] == items[k];
  }

  /** The selection after the next-file command: the first item when the
      selection is not in the list, the following item when there is one,
      and otherwise the selection unchanged. */
  function NextFileTarget(items: seq<FileItem>, selected: Option<FileItem>): (r: Option<FileItem>)
    ensures r == selected || (r.Some? && r.value in items)
  {
    if |items| == 0 then selected
    else
      var k := IndexOf(items, selected);
      if k == -1 then Some(items[0])
      else if k < |items| - 1 then Some(items[k + 1])
      else selected
  }

  /** The selection after the previous-file command: the last item when
      the selection is not in the list, the preceding item when there is
      one, and otherwise the selection unchanged. */
  function PreviousFileTarget(items: seq<FileItem>, selected: Option<FileItem>): (r: Option<FileItem>)
    ensures r == selected || (r.Some? && r.value in items)
  {
    if |items| == 0 then selected
    else
      var k := IndexOf(items, selected);
      if k == -1 then Some(items[|items| - 1])
      else if k > 0 then Some(items[k - 1])
      else selected
  }

  /** In a list without repeats, next-file from the k-th item selects the
      following item, or stays on the last one. */
  lemma NextFromIndex(items: seq<FileItem>, k: int)
    requires Distinct(items) && 0 <= k < |items|
    ensures NextFileTarget(items, Some(items[k])) == Some(items[if k < |items| - 1 then k + 1 else k])
  {
    IndexOfDistinct(items, k);
  }

  /** In a list without repeats, previous-file from the k-th item selects
      the preceding item, or stays on the first one. */
  lemma PreviousFromIndex(items: seq<FileItem>, k: int)
    requires Distinct(items) && 0 <= k < |items|
    ensures PreviousFileTarget(items, Some(items[k])) == Some(items[if k > 0 then k - 1 else k])
  {
    IndexOfDistinct(items, k);
  }

  /** In a list without repeats, stepping forward and then back returns
      to where one started, and stepping back and then forward too. */
  lemma NextThenPrevious(items: seq<FileItem>, k: int)
    requires Distinct(items) && 0 <= k < |items| - 1
    ensures NextFileTarget(items, Some(items[k])) == Some(items[k + 1])
    ensures PreviousFileTarget(items, Some(items[k + 1])) == Some(items[k])
  {
    NextFromIndex(items, k);
    PreviousFromIndex(items, k + 1);
  }

  function NextSteps(items: seq<FileItem>, selected: Option<FileItem>, n: nat): Option<FileItem> {
    if n == 0 then selected else NextFileTarget(items, NextSteps(items, selected, n - 1))
  }

  function PreviousSteps(items: seq<FileItem>, selected: Option<FileItem>, n: nat): Option<FileItem> {
    if n == 0 then selected else PreviousFileTarget(items, PreviousSteps(items, selected, n - 1))
  }

  /** Starting outside the list, n next-file steps select the n-th item,
      and the last item once the end is reached. */
  lemma {:induction false} NextStepsVisitInOrder(items: seq<FileItem>, selected: Option<FileItem>, n: nat)
    requires Distinct(items) && |items| > 0 && IndexOf(items, selected) == -1 && n >= 1
    ensures NextSteps(items, selected, n) == Some(items[if n <= |items| then n - 1 else |items| - 1])
  {
    if n > 1 {
      NextStepsVisitInOrder(items, selected, n - 1);
      var k := if n - 1 <= |items| then n - 2 else |items| - 1;
      assert NextSteps(items, selected, n) == NextFileTarget(items, Some(items[k]));
      NextFromIndex(items, k);
      if n <= |items| {
        assert k < |items| - 1 && k + 1 == n - 1;
      } else {
        assert k == |items| - 1;
      }
    }
  }

  /** Starting outside the list, n previous-file steps select the n-th
      item from the end, and the first item once the start is reached. */
  lemma {:induction false} PreviousStepsVisitInOrder(items: seq<FileItem>, selected: Option<FileItem>, n: nat)
    requires Distinct(items) && |items| > 0 && IndexOf(items, selected) == -1 && n >= 1
    ensures PreviousSteps(items, selected, n) == Some(items[if n <= |items| then |items| - n else 0])
  {
    if n > 1 {
      PreviousStepsVisitInOrder(items, selected, n - 1);
      var k := if n - 1 <= |items| then |items| - (n - 1) else 0;
      assert PreviousSteps(items, selected, n) == PreviousFileTarget(items, Some(items[k]));
      PreviousFromIndex(items, k);
      if n <= |items| {
        assert k > 0 && k - 1 == |items| - n;
      } else {
        assert k == 0;
      }
    }
  }
}
