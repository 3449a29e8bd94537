/** The two directory walks with an explicit stack: storage usage, and the recursive listing. */
module DirectoryWalk {

  /**
   A directory entry as scandir meets it. A file's size is missing when stat fails. A directory yields its entries in
   some order, possibly only some of them before an error, in which case it is not complete; one that cannot be opened
   yields none. Special stands for what is neither, and for entries whose kind cannot be told.
   */
  datatype Tree =
    | File(path: string, hasSize: bool, size: nat)
    | Dir(path: string, entries: seq<Tree>, complete: bool)
    | Special(path: string)

  datatype Usage = Usage(bytes: nat, files: nat)

  const NOTHING := Usage(0, 0)

  function Plus(a: Usage, b: Usage): Usage {
    Usage(a.bytes + b.bytes, a.files + b.files)
  }

  // ---------------------------------------------------------------------------
  // Usage
  // ---------------------------------------------------------------------------

  /** The recursive fold: what scanning t as a directory adds up to; scanning anything else fails and adds nothing. */
  function ScanUsage(t: Tree): Usage {
    if t.Dir? then EntriesUsage(t.entries) else NOTHING
  }

  function EntriesUsage(entries: seq<Tree>): Usage {
    if entries == [] then NOTHING
    else Plus(EntriesUsage(entries[..|entries| - 1]), EntryUsage(entries[|entries| - 1]))
  }

  function EntryUsage(t: Tree): Usage {
    match t
    case File(_, hasSize, size) => if hasSize then Usage(size, 1) else NOTHING
    case Dir(_, entries, _) => EntriesUsage(entries)
    case Special(_) => NOTHING
  }

  function StackUsage(stack: seq<Tree>): Usage {
    if stack == [] then NOTHING
    else Plus(StackUsage(stack[..|stack| - 1]), ScanUsage(stack[|stack| - 1]))
  }

  /** How many nodes a tree has, and how many the trees of a sequence have: the measure of both loops. */
  function Nodes(t: Tree): (n: nat)
    ensures n >= 1 && (t.Dir? ==> AllNodes(t.entries) < n)
  {
    if t.Dir? then 1 + AllNodes(t.entries) else 1
  }

  function AllNodes(trees: seq<Tree>): nat {
    if trees == [] then 0 else AllNodes(trees[..|trees| - 1]) + Nodes(trees[|trees| - 1])
  }

  lemma PushUsage(stack: seq<Tree>, t: Tree)
    ensures StackUsage(stack + [t]) == Plus(StackUsage(stack), ScanUsage(t))
    ensures AllNodes(stack + [t]) == AllNodes(stack) + Nodes(t)
  {
    assert (stack + [t])[..|stack|] == stack;
  }

  lemma NextEntry(entries: seq<Tree>, i: nat)
    requires i < |entries|
    ensures EntriesUsage(entries[..i + 1]) == Plus(EntriesUsage(entries[..i]), EntryUsage(entries[i]))
    ensures AllNodes(entries[..i + 1]) == AllNodes(entries[..i]) + Nodes(entries[i])
  {
    assert entries[..i + 1][..i] == entries[..i];
  }

  lemma NoEntries()
    ensures EntriesUsage([]) == StackUsage([]) == NOTHING && AllNodes([]) == 0
  {
  }

  /** One directory: files are counted, subdirectories are pushed. */
  method ScanEntries(entries: seq<Tree>, before: Usage, pending: seq<Tree>) returns (total: Usage, stack: seq<Tree>)
    ensures total.bytes + StackUsage(stack).bytes
         == before.bytes + StackUsage(pending).bytes + EntriesUsage(entries).bytes
    ensures total.files + StackUsage(stack).files
         == before.files + StackUsage(pending).files + EntriesUsage(entries).files
    ensures AllNodes(stack) <= AllNodes(pending) + AllNodes(entries)
  {
    total, stack := before, pending;
    assert entries[..0] == [];
    NoEntries();
    hide StackUsage, AllNodes, EntriesUsage;
    for i := 0 to |entries|
      invariant total.bytes + StackUsage(stack).bytes
             == before.bytes + StackUsage(pending).bytes + EntriesUsage(entries[..i]).bytes
      invariant total.files + StackUsage(stack).files
             == before.files + StackUsage(pending).files + EntriesUsage(entries[..i]).files
      invariant AllNodes(stack) <= AllNodes(pending) + AllNodes(entries[..i])
    {
      var entry := entries[i];
      NextEntry(entries, i);
      PushUsage(stack, entry);
      if entry.File? {
        if entry.hasSize {
          total := Usage(total.bytes + entry.size, total.files + 1);
        }
      } else if entry.Dir? {
        stack := stack + [entry];
      }
    }
    assert entries[..|entries|] == entries;
  }

  lemma PopUsage(stack: seq<Tree>)
    requires |stack| > 0
    ensures StackUsage(stack) == Plus(StackUsage(stack[..|stack| - 1]), ScanUsage(stack[|stack| - 1]))
    ensures AllNodes(stack) == AllNodes(stack[..|stack| - 1]) + Nodes(stack[|stack| - 1])
  {
  }

  /** One turn of the usage loop: the last pending path is scanned. */
  method ScanNext(pending: seq<Tree>, before: Usage) returns (total: Usage, stack: seq<Tree>)
    requires |pending| > 0
    ensures total.bytes + StackUsage(stack).bytes == before.bytes + StackUsage(pending).bytes
    ensures total.files + StackUsage(stack).files == before.files + StackUsage(pending).files
    ensures AllNodes(stack) < AllNodes(pending)
  {
    PopUsage(pending);
    hide StackUsage, AllNodes, EntriesUsage;
    var current := pending[|pending| - 1];
    total, stack := before, pending[..|pending| - 1];
    if current.Dir? {
      total, stack := ScanEntries(current.entries, total, stack);
    }
  }

  lemma StackOfOne(root: Tree)
    ensures StackUsage([root]) == ScanUsage(root)
  {
    hide EntriesUsage, ScanUsage;
    assert [root][..0] == [];
  }

  lemma EmptyStack(stack: seq<Tree>)
    requires |stack| == 0
    ensures StackUsage(stack) == NOTHING
  {
  }

  /** The usage loop gives the same byte total and file count as the recursive fold, and ends. */
  method ScanDirectory(root: Tree) returns (total: Usage)
    ensures total == ScanUsage(root)
  {
    hide StackUsage, AllNodes, EntriesUsage;
    total := NOTHING;
    var stack := [root];
    StackOfOne(root);
    while |stack| > 0
      invariant total.bytes + StackUsage(stack).bytes == ScanUsage(root).bytes
      invariant total.files + StackUsage(stack).files == ScanUsage(root).files
      decreases AllNodes(stack)
    {
      total, stack := ScanNext(stack, total);
    }
    EmptyStack(stack);
  }

  /** The files whose size was read, anywhere below the entries that scans reach. */
  function SizedFiles(entries: seq<Tree>): seq<Tree> {
    if |entries| == 0 then []
    else SizedFiles(entries[..|entries| - 1]) + SizedIn(entries[|entries| - 1])
  }

  function SizedIn(t: Tree): seq<Tree> {
    match t
    case File(_, hasSize, _) => if hasSize then [t] else []
    case Dir(_, entries, _) => SizedFiles(entries)
    case Special(_) => []
  }

  function SizeSum(files: seq<Tree>): nat {
    if files == [] then 0
    else SizeSum(files[..|files| - 1]) + (if files[|files| - 1].File? then files[|files| - 1].size else 0)
  }

  lemma {:induction false} SizeSumConcat(a: seq<Tree>, b: seq<Tree>)
    ensures SizeSum(a + b) == SizeSum(a) + SizeSum(b)
  {
    if b == [] {
      assert a + b == a;
    } else {
      SizeSumConcat(a, b[..|b| - 1]);
      assert (a + b)[..|a + b| - 1] == a + b[..|b| - 1];
    }
  }

  lemma OneFile(t: Tree)
    requires t.File?
    ensures SizeSum([t]) == t.size
  {
    assert [t][..0] == [];
  }

  /** The fold counts each file once, with its size; a directory that cannot be read hides only what is below it. */
  lemma {:induction false} UsageCountsSizedFiles(entries: seq<Tree>)
    ensures EntriesUsage(entries) == Usage(SizeSum(SizedFiles(entries)), |SizedFiles(entries)|)
  {
    if |entries| > 0 {
      var init, last := entries[..|entries| - 1], entries[|entries| - 1];
      UsageCountsSizedFiles(init);
      EntryCountsSizedFiles(last);
      hide EntryUsage, SizedIn, SizeSum;
      SizeSumConcat(SizedFiles(init), SizedIn(last));
    }
  }

  lemma {:induction false} EntryCountsSizedFiles(t: Tree)
    ensures EntryUsage(t) == Usage(SizeSum(SizedIn(t)), |SizedIn(t)|)
  {
    match t
    case File(_, _, _) => OneFile(t);
    case Dir(_, entries, _) => UsageCountsSizedFiles(entries);
    case Special(_) =>
  }

  // ---------------------------------------------------------------------------
  // Listing
  // ---------------------------------------------------------------------------

  /** What the listing looks at below an entry: nothing unless the directory could be read to the end. */
  function Below(t: Tree): (below: seq<Tree>)
    ensures AllNodes(below) < Nodes(t)
  {
    if t.Dir? && t.complete then t.entries else []
  }

  /** The natural recursive listing: each entry, then what is below it. */
  function Recursive(entries: seq<Tree>): seq<Tree>
    decreases AllNodes(entries)
  {
    if entries == [] then []
    else
      var last := entries[|entries| - 1];
      Recursive(entries[..|entries| - 1]) + [last]
      + (if last.Dir? && last.complete then Recursive(last.entries) else [])
  }

  /** The order in which a stack gives the same entries: last one first. */
  function Visited(entries: seq<Tree>): seq<Tree>
    decreases AllNodes(entries)
  {
    if entries == [] then []
    else
      var last := entries[|entries| - 1];
      [last] + Visited(Below(last)) + Visited(entries[..|entries| - 1])
  }

  lemma {:induction false} AllNodesConcat(a: seq<Tree>, b: seq<Tree>)
    ensures AllNodes(a + b) == AllNodes(a) + AllNodes(b)
  {
    if b == [] {
      assert a + b == a;
    } else {
      AllNodesConcat(a, b[..|b| - 1]);
      assert (a + b)[..|a + b| - 1] == a + b[..|b| - 1];
    }
  }

  lemma PopVisited(stack: seq<Tree>)
    requires |stack| > 0
    ensures var rest, last := stack[..|stack| - 1], stack[|stack| - 1];
            && Visited(stack) == [last] + Visited(Below(last)) + Visited(rest)
            && AllNodes(stack) == AllNodes(rest) + Nodes(last)
  {
  }

  lemma {:induction false} VisitedConcat(a: seq<Tree>, b: seq<Tree>)
    ensures Visited(a + b) == Visited(b) + Visited(a)
    decreases |b|
  {
    if |b| == 0 {
      assert a + b == a;
    } else {
      var init, last := b[..|b| - 1], b[|b| - 1];
      assert (a + b)[..|a + b| - 1] == a + init;
      PopVisited(b);
      PopVisited(a + b);
      VisitedConcat(a, init);
      Associate([last] + Visited(Below(last)), Visited(init), Visited(a));
    }
  }

  lemma Associate(x: seq<Tree>, y: seq<Tree>, z: seq<Tree>)
    ensures x + (y + z) == (x + y) + z
  {
  }

  /** The explicit-stack walk visits exactly the recursive listing, from the end, and ends. */
  method ListRecursively(entries: seq<Tree>) returns (all: seq<Tree>)
    ensures all == Visited(entries)
  {
    all := [];
    var stack := entries;
    while |stack| > 0
      invariant all + Visited(stack) == Visited(entries)
      decreases AllNodes(stack)
    {
      hide Visited, AllNodes;
      PopVisited(stack);
      var entry, rest := stack[|stack| - 1], stack[..|stack| - 1];
      ghost var below := Visited(Below(entry));
      VisitedConcat(rest, Below(entry));
      AllNodesConcat(rest, Below(entry));
      Associate(all, [entry] + below, Visited(rest));
      Associate(all, [entry], below);
      Associate(all + [entry], below, Visited(rest));
      all := all + [entry];
      stack := rest + Below(entry);
    }
    assert Visited(stack) == [];
  }

  /** Each entry that the recursive listing has is collected exactly as often: once for every place in the tree. */
  lemma {:induction false} VisitedIsRecursive(entries: seq<Tree>)
    ensures multiset(Visited(entries)) == multiset(Recursive(entries))
    decreases AllNodes(entries)
  {
    if entries != [] {
      VisitedIsRecursive(entries[..|entries| - 1]);
      VisitedIsRecursive(Below(entries[|entries| - 1]));
    }
  }

  /** The entry is found by going down through directories that can be read, picking one of the entries each time. */
  ghost predicate FoundBy(entries: seq<Tree>, path: seq<nat>, t: Tree)
    decreases |path|
  {
    && |path| > 0 && path[0] < |entries|
    && var e := entries[path[0]];
       if |path| == 1 then t == e else e.Dir? && e.complete && FoundBy(e.entries, path[1..], t)
  }

  ghost predicate Reachable(entries: seq<Tree>, t: Tree) {
    exists path :: FoundBy(entries, path, t)
  }

  lemma PathFromLast(entries: seq<Tree>, path: seq<nat>, t: Tree)
    requires |entries| > 0
    requires var last := entries[|entries| - 1]; last.Dir? && last.complete && FoundBy(last.entries, path, t)
    ensures FoundBy(entries, [|entries| - 1] + path, t)
  {
    assert ([|entries| - 1] + path)[1..] == path;
  }

  lemma PathInFront(entries: seq<Tree>, n: nat, path: seq<nat>, t: Tree)
    requires n <= |entries|
    ensures FoundBy(entries[..n], path, t) <==> FoundBy(entries, path, t) && path[0] < n
  {
  }

  /** Something is below the last entry. */
  ghost predicate BelowLast(entries: seq<Tree>, t: Tree)
    requires |entries| > 0
  {
    var last := entries[|entries| - 1];
    last.Dir? && last.complete && Reachable(last.entries, t)
  }

  lemma ReachableHere(entries: seq<Tree>, t: Tree)
    requires |entries| > 0
    requires var n := |entries| - 1;
             t == entries[n] || BelowLast(entries, t) || Reachable(entries[..n], t)
    ensures Reachable(entries, t)
  {
    var n := |entries| - 1;
    if t == entries[n] {
      assert FoundBy(entries, [n], t);
    } else if BelowLast(entries, t) {
      var path :| FoundBy(entries[n].entries, path, t);
      PathFromLast(entries, path, t);
    } else {
      var path :| FoundBy(entries[..n], path, t);
      PathInFront(entries, n, path, t);
    }
  }

  lemma ReachableSplits(entries: seq<Tree>, t: Tree)
    requires Reachable(entries, t)
    ensures |entries| > 0
    ensures var n := |entries| - 1;
            t == entries[n] || BelowLast(entries, t) || Reachable(entries[..n], t)
  {
    var n, path :| n == |entries| - 1 && FoundBy(entries, path, t);
    PathInFront(entries, n, path, t);
    if path[0] == n && |path| > 1 {
      assert FoundBy(entries[n].entries, path[1..], t);
    }
  }

  /** The listing collects exactly the entries that some path of indices leads to. */
  lemma {:induction false} VisitedIsReachable(entries: seq<Tree>, t: Tree)
    ensures t in Visited(entries) <==> Reachable(entries, t)
    decreases AllNodes(entries)
  {
    if |entries| > 0 {
      var n := |entries| - 1;
      VisitedIsReachable(entries[..n], t);
      VisitedIsReachable(Below(entries[n]), t);
      PopVisited(entries);
      NothingReachable(t);
      if !Reachable(entries, t) && (t == entries[n] || BelowLast(entries, t) || Reachable(entries[..n], t)) {
        ReachableHere(entries, t);
      }
    }
    hide Visited, Reachable;
    if Reachable(entries, t) {
      ReachableSplits(entries, t);
    } else if |entries| == 0 {
      NothingVisited(entries);
    }
  }

  lemma NothingReachable(t: Tree)
    ensures !Reachable([], t)
  {
  }

  lemma NothingVisited(entries: seq<Tree>)
    requires |entries| == 0
    ensures Visited(entries) == []
  {
  }

  /** The usage of a directory is that of all files with a readable size that its scan reaches; of nothing else any. */
  lemma ScanCountsSizedFiles(root: Tree)
    ensures ScanUsage(root)
         == if root.Dir? then Usage(SizeSum(SizedFiles(root.entries)), |SizedFiles(root.entries)|) else Usage(0, 0)
  {
    if root.Dir? {
      UsageCountsSizedFiles(root.entries);
    }
  }
}
