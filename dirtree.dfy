/** The directory structure of the MFT backend (mft_scanner.py:198-238):
    the enumerated `entries` (`reference -> (parent reference, name)`)
    grouped by parent, the breadth-first walk from the NTFS root that keeps
    the directories reachable from it without passing through a name that
    starts with `$`, and the resolution of a reference to its full path. */
module DirTree {
  import opened Dicts
  import opened Text

  /** `_NTFS_ROOT_REF`: the file reference of the volume's root directory. */
  const NtfsRootRef: nat := 5

  type Entries = Dict<nat, (nat, string)>

  /** `name.startswith("$")`: the NTFS metadata directories. */
  predicate Dollar(name: string)
  {
    |name| > 0 && name[0] == '$'
  }

  // ---------------------------------------------------------------------
  // children_of

  /** The `(reference, name)` pairs of the keys whose parent is `p`, in key
      order: `children_of[p]` once the grouping loop is done. */
  function ChildrenIn(keys: seq<nat>, items: map<nat, (nat, string)>, p: nat): seq<(nat, string)>
    requires forall i | 0 <= i < |keys| :: keys[i] in items
  {
    if keys == [] then []
    else
      var n := |keys| - 1;
      assert forall i | 0 <= i < n :: keys[..n][i] == keys[i];
      ChildrenIn(keys[..n], items, p) + if items[keys[n]].0 == p then [(keys[n], items[keys[n]].1)] else []
  }

  /** `children_of.get(p, [])` */
  function Children(m: map<nat, seq<(nat, string)>>, p: nat): seq<(nat, string)>
  {
    if p in m then m[p] else []
  }

  /** The grouping loop of mft_scanner.py:203-205. */
  method GroupChildren(entries: Entries) returns (children: map<nat, seq<(nat, string)>>)
    requires entries.Valid()
    ensures forall p :: Children(children, p) == ChildrenIn(entries.keys, entries.items, p)
  {
    children := map[];
    var keys := entries.keys;
    for i := 0 to |keys|
      invariant forall p :: Children(children, p) == ChildrenIn(keys[..i], entries.items, p)
    {
      var ref := keys[i];
      var (parent, name) := entries.items[ref];
      ghost var before := children;
      children := children[parent := Children(children, parent) + [(ref, name)]];
      GroupStep(keys, entries.items, i, before, children);
    }
    assert keys[..|keys|] == keys;
  }

  /** Appending key `i` under its parent keeps the groups equal to the
      children of the first `i + 1` keys. */
  lemma GroupStep(keys: seq<nat>, items: map<nat, (nat, string)>, i: nat,
                  children: map<nat, seq<(nat, string)>>, after: map<nat, seq<(nat, string)>>)
    requires i < |keys| && forall j | 0 <= j < |keys| :: keys[j] in items
    requires forall p :: Children(children, p) == ChildrenIn(keys[..i], items, p)
    requires after == children[items[keys[i]].0 := Children(children, items[keys[i]].0) + [(keys[i], items[keys[i]].1)]]
    ensures forall p :: Children(after, p) == ChildrenIn(keys[..i + 1], items, p)
  {
    ChildrenSnoc(keys, items, i);
    var parent := items[keys[i]].0;
    forall p ensures Children(after, p) == ChildrenIn(keys[..i + 1], items, p) {
      if p != parent {
        assert Children(after, p) == Children(children, p);
      }
    }
  }

  lemma ChildrenSnoc(keys: seq<nat>, items: map<nat, (nat, string)>, i: nat)
    requires i < |keys| && forall j | 0 <= j < |keys| :: keys[j] in items
    ensures forall p :: ChildrenIn(keys[..i + 1], items, p) ==
              ChildrenIn(keys[..i], items, p) + if items[keys[i]].0 == p then [(keys[i], items[keys[i]].1)] else []
  {
    assert keys[..i + 1][..i] == keys[..i];
  }

  /** Each child pair is an entry with parent `p`, under its own name; each
      entry with parent `p` is among them; and no reference repeats. */
  lemma ChildrenFacts(keys: seq<nat>, items: map<nat, (nat, string)>, p: nat)
    requires forall i | 0 <= i < |keys| :: keys[i] in items
    requires forall i, j | 0 <= i < j < |keys| :: keys[i] != keys[j]
    ensures forall j | 0 <= j < |ChildrenIn(keys, items, p)| ::
              var (c, name) := ChildrenIn(keys, items, p)[j]; c in keys && c in items && items[c] == (p, name)
    ensures forall i | 0 <= i < |keys| && items[keys[i]].0 == p :: HasRef(ChildrenIn(keys, items, p), keys[i])
    ensures forall j, l | 0 <= j < l < |ChildrenIn(keys, items, p)| ::
              ChildrenIn(keys, items, p)[j].0 != ChildrenIn(keys, items, p)[l].0
  {
    ChildrenSound(keys, items, p);
    ChildrenComplete(keys, items, p);
    ChildrenDistinct(keys, items, p);
  }

  lemma {:induction false} ChildrenSound(keys: seq<nat>, items: map<nat, (nat, string)>, p: nat)
    requires forall i | 0 <= i < |keys| :: keys[i] in items
    ensures forall j | 0 <= j < |ChildrenIn(keys, items, p)| ::
              var (c, name) := ChildrenIn(keys, items, p)[j]; c in keys && c in items && items[c] == (p, name)
  {
    if keys != [] {
      var n := |keys| - 1;
      var init := keys[..n];
      ChildrenSound(init, items, p);
      var before := ChildrenIn(init, items, p);
      var kids := ChildrenIn(keys, items, p);
      assert kids == before + if items[keys[n]].0 == p then [(keys[n], items[keys[n]].1)] else [];
      forall j | 0 <= j < |kids|
        ensures var (c, name) := kids[j]; c in keys && c in items && items[c] == (p, name)
      {
        if j < |before| {
          assert kids[j] == before[j];
        }
      }
    }
  }

  /** `c` is the reference of one of the pairs `kids`. */
  predicate HasRef(kids: seq<(nat, string)>, c: nat)
  {
    exists j | 0 <= j < |kids| :: kids[j].0 == c
  }

  lemma {:induction false} ChildrenComplete(keys: seq<nat>, items: map<nat, (nat, string)>, p: nat)
    requires forall i | 0 <= i < |keys| :: keys[i] in items
    ensures forall i | 0 <= i < |keys| && items[keys[i]].0 == p :: HasRef(ChildrenIn(keys, items, p), keys[i])
  {
    if keys != [] {
      var n := |keys| - 1;
      var init := keys[..n];
      ChildrenComplete(init, items, p);
      var before := ChildrenIn(init, items, p);
      var kids := ChildrenIn(keys, items, p);
      assert kids == before + if items[keys[n]].0 == p then [(keys[n], items[keys[n]].1)] else [];
      forall i | 0 <= i < |keys| && items[keys[i]].0 == p
        ensures HasRef(kids, keys[i])
      {
        if i < n {
          assert init[i] == keys[i];
          assert HasRef(before, init[i]);
          var j :| 0 <= j < |before| && before[j].0 == init[i];
          assert kids[j] == before[j];
        } else {
          var j := |kids| - 1;
          assert kids[j].0 == keys[i];
        }
      }
    }
  }

  lemma {:induction false} ChildrenDistinct(keys: seq<nat>, items: map<nat, (nat, string)>, p: nat)
    requires forall i | 0 <= i < |keys| :: keys[i] in items
    requires forall i, j | 0 <= i < j < |keys| :: keys[i] != keys[j]
    ensures forall j, l | 0 <= j < l < |ChildrenIn(keys, items, p)| ::
              ChildrenIn(keys, items, p)[j].0 != ChildrenIn(keys, items, p)[l].0
  {
    if keys != [] {
      var n := |keys| - 1;
      var init := keys[..n];
      ChildrenDistinct(init, items, p);
      ChildrenSound(init, items, p);
      var before := ChildrenIn(init, items, p);
      var kids := ChildrenIn(keys, items, p);
      assert kids == before + if items[keys[n]].0 == p then [(keys[n], items[keys[n]].1)] else [];
      forall j, l | 0 <= j < l < |kids| ensures kids[j].0 != kids[l].0
      {
        if l < |before| {
          assert kids[j] == before[j] && kids[l] == before[l];
        } else {
          assert kids[j] == before[j];
          var c := before[j].0;
          assert c in init;
          assert kids[l].0 == keys[n];
        }
      }
    }
  }

  // ---------------------------------------------------------------------
  // Reachability from the root

  /** `k` is reached from the root in at most `n` steps down, each step to a
      directory whose name does not start with `$`. */
  ghost predicate ReachIn(items: map<nat, (nat, string)>, k: nat, n: nat)
    decreases n
  {
    k == NtfsRootRef || (n > 0 && k in items && !Dollar(items[k].1) && ReachIn(items, items[k].0, n - 1))
  }

  ghost predicate Reachable(items: map<nat, (nat, string)>, k: nat)
  {
    exists n: nat :: ReachIn(items, k, n)
  }

  /** The walk ends exactly when it never comes back to the root: the root's
      own entry, if it is there and its name does not start with `$`, must
      not have a reachable parent. Otherwise the root is queued once more
      and the walk repeats forever. */
  ghost predicate RootStays(items: map<nat, (nat, string)>)
  {
    NtfsRootRef in items && !Dollar(items[NtfsRootRef].1) ==> !Reachable(items, items[NtfsRootRef].0)
  }

  lemma ReachChild(items: map<nat, (nat, string)>, c: nat)
    requires c in items && !Dollar(items[c].1) && Reachable(items, items[c].0)
    ensures Reachable(items, c)
  {
    var n: nat :| ReachIn(items, items[c].0, n);
    assert ReachIn(items, c, n + 1);
  }

  lemma RootReachable(items: map<nat, (nat, string)>)
    ensures Reachable(items, NtfsRootRef)
  {
    assert ReachIn(items, NtfsRootRef, 0);
  }

  // ---------------------------------------------------------------------
  // The compact map

  /** A compact map is rooted when the root is not a key and each key's
      parent is the root or a key inserted before it. */
  predicate ParentsFirst(c: Entries)
  {
    && NtfsRootRef !in c.items
    && forall i | 0 <= i < |c.keys| ::
         c.keys[i] in c.items && (c.items[c.keys[i]].0 == NtfsRootRef || c.items[c.keys[i]].0 in c.keys[..i])
  }

  /** One element of `queue`: `(ref, parent_ref, name)`. */
  datatype Pending = Pending(ref: nat, parent: nat, name: string)

  const Start: Pending := Pending(NtfsRootRef, NtfsRootRef, "")

  /** The queue entries the loop over `children_of[d]` appends. */
  function Pendings(kids: seq<(nat, string)>, d: nat): seq<Pending>
  {
    if kids == [] then []
    else
      var n := |kids| - 1;
      Pendings(kids[..n], d) + if Dollar(kids[n].1) then [] else [Pending(kids[n].0, d, kids[n].1)]
  }

  function PendingRefs(q: seq<Pending>): set<nat>
  {
    set i | 0 <= i < |q| :: q[i].ref
  }

  /** The loop of mft_scanner.py:215-218: queue each child whose name does
      not start with `$`. */
  method EnqueueChildren(kids: seq<(nat, string)>, d: nat, queue: seq<Pending>) returns (queue': seq<Pending>)
    ensures queue' == queue + Pendings(kids, d)
  {
    queue' := queue;
    for i := 0 to |kids|
      invariant queue' == queue + Pendings(kids[..i], d)
    {
      var (childRef, childName) := kids[i];
      assert kids[..i + 1][..i] == kids[..i];
      if Dollar(childName) {
        continue;
      }
      queue' := queue' + [Pending(childRef, d, childName)];
    }
    assert kids[..|kids|] == kids;
  }

  /** Each appended entry has parent `d`, a name without `$`, and comes from
      a child pair. */
  lemma {:induction false} PendingsSound(kids: seq<(nat, string)>, d: nat)
    ensures forall j | 0 <= j < |Pendings(kids, d)| ::
              Pendings(kids, d)[j].parent == d && !Dollar(Pendings(kids, d)[j].name)
              && (Pendings(kids, d)[j].ref, Pendings(kids, d)[j].name) in kids
  {
    if kids != [] {
      var n := |kids| - 1;
      var init := kids[..n];
      PendingsSound(init, d);
      var before := Pendings(init, d);
      var ps := Pendings(kids, d);
      assert ps == before + if Dollar(kids[n].1) then [] else [Pending(kids[n].0, d, kids[n].1)];
      forall j | 0 <= j < |ps|
        ensures ps[j].parent == d && !Dollar(ps[j].name) && (ps[j].ref, ps[j].name) in kids
      {
        if j < |before| {
          assert ps[j] == before[j];
          var i :| 0 <= i < |init| && init[i] == (ps[j].ref, ps[j].name);
          assert kids[i] == init[i];
        }
      }
    }
  }

  /** Every child whose name does not start with `$` is appended. */
  lemma {:induction false} PendingsComplete(kids: seq<(nat, string)>, d: nat)
    ensures forall i | 0 <= i < |kids| && !Dollar(kids[i].1) :: kids[i].0 in PendingRefs(Pendings(kids, d))
  {
    if kids != [] {
      var n := |kids| - 1;
      var init := kids[..n];
      PendingsComplete(init, d);
      var before := Pendings(init, d);
      var ps := Pendings(kids, d);
      assert ps == before + if Dollar(kids[n].1) then [] else [Pending(kids[n].0, d, kids[n].1)];
      forall i | 0 <= i < |kids| && !Dollar(kids[i].1) ensures kids[i].0 in PendingRefs(ps)
      {
        if i < n {
          assert init[i] == kids[i];
          var j :| 0 <= j < |before| && before[j].ref == kids[i].0;
          assert ps[j] == before[j];
        } else {
          assert ps[|ps| - 1].ref == kids[i].0;
        }
      }
    }
  }

  /** Children with distinct references are appended with distinct
      references. */
  lemma {:induction false} PendingsDistinct(kids: seq<(nat, string)>, d: nat)
    requires forall i, l | 0 <= i < l < |kids| :: kids[i].0 != kids[l].0
    ensures forall j, l | 0 <= j < l < |Pendings(kids, d)| :: Pendings(kids, d)[j].ref != Pendings(kids, d)[l].ref
  {
    if kids != [] {
      var n := |kids| - 1;
      var init := kids[..n];
      PendingsDistinct(init, d);
      PendingsSound(init, d);
      var before := Pendings(init, d);
      var ps := Pendings(kids, d);
      assert ps == before + if Dollar(kids[n].1) then [] else [Pending(kids[n].0, d, kids[n].1)];
      forall j, l | 0 <= j < l < |ps| ensures ps[j].ref != ps[l].ref
      {
        if l < |before| {
          assert ps[j] == before[j] && ps[l] == before[l];
        } else {
          assert ps[j] == before[j];
          var i :| 0 <= i < |init| && init[i] == (before[j].ref, before[j].name);
          assert kids[i] == init[i];
          assert ps[l].ref == kids[n].0;
        }
      }
    }
  }

  /** What the walk appends for directory `d`: entries of the form
      `(c, d, name)` for exactly the children `c` of `d` whose name does not
      start with `$`, each once, each true to `entries`. */
  lemma QueuedFor(entries: Entries, d: nat, ps: seq<Pending>)
    requires entries.Valid() && ps == Pendings(ChildrenIn(entries.keys, entries.items, d), d)
    ensures forall j | 0 <= j < |ps| ::
              ps[j].parent == d && ps[j].ref in entries.items && entries.items[ps[j].ref] == (d, ps[j].name)
              && !Dollar(ps[j].name)
    ensures forall c | c in entries.items && entries.items[c].0 == d && !Dollar(entries.items[c].1) ::
              c in PendingRefs(ps)
    ensures forall j, l | 0 <= j < l < |ps| :: ps[j].ref != ps[l].ref
  {
    QueuedSound(entries, d, ps);
    QueuedComplete(entries, d, ps);
    ChildrenDistinct(entries.keys, entries.items, d);
    PendingsDistinct(ChildrenIn(entries.keys, entries.items, d), d);
  }

  lemma QueuedSound(entries: Entries, d: nat, ps: seq<Pending>)
    requires entries.Valid() && ps == Pendings(ChildrenIn(entries.keys, entries.items, d), d)
    ensures forall j | 0 <= j < |ps| ::
              ps[j].parent == d && ps[j].ref in entries.items && entries.items[ps[j].ref] == (d, ps[j].name)
              && !Dollar(ps[j].name)
  {
    var kids := ChildrenIn(entries.keys, entries.items, d);
    ChildrenSound(entries.keys, entries.items, d);
    PendingsSound(kids, d);
    forall j | 0 <= j < |ps|
      ensures ps[j].ref in entries.items && entries.items[ps[j].ref] == (d, ps[j].name)
    {
      var l :| 0 <= l < |kids| && kids[l] == (ps[j].ref, ps[j].name);
    }
  }

  lemma QueuedComplete(entries: Entries, d: nat, ps: seq<Pending>)
    requires entries.Valid() && ps == Pendings(ChildrenIn(entries.keys, entries.items, d), d)
    ensures forall c | c in entries.items && entries.items[c].0 == d && !Dollar(entries.items[c].1) ::
              c in PendingRefs(ps)
  {
    var kids := ChildrenIn(entries.keys, entries.items, d);
    ChildrenSound(entries.keys, entries.items, d);
    ChildrenComplete(entries.keys, entries.items, d);
    PendingsComplete(kids, d);
    forall c | c in entries.items && entries.items[c].0 == d && !Dollar(entries.items[c].1)
      ensures c in PendingRefs(ps)
    {
      KeysCover(entries, c);
      var i :| 0 <= i < |entries.keys| && entries.keys[i] == c;
      var j :| 0 <= j < |kids| && kids[j].0 == c;
      assert kids[j] == (c, entries.items[c].1);
    }
  }

  // ---------------------------------------------------------------------
  // The breadth-first walk

  /** Nothing has been taken from the queue yet. */
  predicate Initial(queue: seq<Pending>, compact: Entries)
  {
    queue == [Start] && compact.keys == []
  }

  /** A queued directory other than the root: an entry of `items` under its
      own name, which does not start with `$`, and whose parent has already
      been taken from the queue. */
  predicate QueuedTrue(items: map<nat, (nat, string)>, q: Pending, compact: Entries)
  {
    && q.ref != NtfsRootRef && q.ref in items && items[q.ref] == (q.parent, q.name) && !Dollar(q.name)
    && (q.parent == NtfsRootRef || q.parent in compact.items)
  }

  /** Every child without `$` of a directory already taken from the queue
      has been seen. */
  ghost predicate Closed(items: map<nat, (nat, string)>, queue: seq<Pending>, compact: Entries)
  {
    forall c | c in items && !Dollar(items[c].1) && (items[c].0 == NtfsRootRef || items[c].0 in compact.items) ::
      c == NtfsRootRef || c in compact.items || c in PendingRefs(queue)
  }

  /** The references the walk has met: the root, the taken ones and the
      queued ones. */
  function Seen(queue: seq<Pending>, compact: Entries): set<nat>
  {
    compact.items.Keys + PendingRefs(queue) + {NtfsRootRef}
  }

  /** The state of the walk between two iterations. */
  ghost predicate Bfs(entries: Entries, queue: seq<Pending>, compact: Entries)
  {
    && compact.Valid() && ParentsFirst(compact)
    && (forall k | k in compact.items ::
          k in entries.items && compact.items[k] == entries.items[k] && Reachable(entries.items, k))
    && (forall i, j | 0 <= i < j < |queue| :: queue[i].ref != queue[j].ref)
    && (forall i | 0 <= i < |queue| :: queue[i].ref !in compact.items && Reachable(entries.items, queue[i].ref))
    && (Initial(queue, compact) || forall i | 0 <= i < |queue| :: QueuedTrue(entries.items, queue[i], compact))
    && (!Initial(queue, compact) ==> Closed(entries.items, queue, compact))
  }

  /** `_build_dir_paths_compact`: the compact map holds exactly the
      directories other than the root that are reachable from it, each with
      its own parent and name and after its parent, and its keys are in the
      order the first-in first-out queue takes them (`BfsKeys`, which
      `BfsKeysUnique` shows to fix the sequence); the root path loses its
      trailing separators. */
  method BuildDirPathsCompact(entries: Entries, rootPath: string) returns (compact: Entries, root: string)
    requires entries.Valid() && RootStays(entries.items)
    ensures root == RStripSeps(rootPath)
    ensures compact.Valid() && ParentsFirst(compact)
    ensures forall k :: k in compact.items <==> k != NtfsRootRef && Reachable(entries.items, k)
    ensures forall k | k in compact.items :: k in entries.items && compact.items[k] == entries.items[k]
    ensures BfsKeys(entries, compact.keys)
  {
    var children := GroupChildren(entries);
    root := RStripSeps(rootPath);
    compact := Empty();
    var queue := [Start];
    ghost var order: seq<Pending> := [];
    ghost var universe := entries.items.Keys + {NtfsRootRef};
    BfsStart(entries, universe);
    FifoStart(entries);
    while queue != []
      invariant Bfs(entries, queue, compact)
      invariant Fifo(entries, order, queue, compact)
      invariant Seen(queue, compact) <= universe
      decreases |universe - Seen(queue, compact)|, |queue|
    {
      queue, compact, order := TakeInOrder(entries, children, queue, compact, universe, order);
    }
    BfsDone(entries, compact);
    FifoDone(entries, order, compact);
  }

  /** One iteration of the walk, with the entry it takes added to the
      order. */
  method TakeInOrder(entries: Entries, children: map<nat, seq<(nat, string)>>, queue: seq<Pending>, compact: Entries,
                     ghost universe: set<nat>, ghost order: seq<Pending>)
    returns (queue': seq<Pending>, compact': Entries, ghost order': seq<Pending>)
    requires entries.Valid() && RootStays(entries.items) && Bfs(entries, queue, compact) && queue != []
    requires Fifo(entries, order, queue, compact)
    requires forall p :: Children(children, p) == ChildrenIn(entries.keys, entries.items, p)
    requires universe == entries.items.Keys + {NtfsRootRef} && Seen(queue, compact) <= universe
    ensures Bfs(entries, queue', compact') && Seen(queue', compact') <= universe
    ensures Fifo(entries, order', queue', compact')
    ensures || |universe - Seen(queue', compact')| < |universe - Seen(queue, compact)|
            || (|universe - Seen(queue', compact')| == |universe - Seen(queue, compact)| && |queue'| < |queue|)
  {
    queue', compact' := TakeNext(entries, children, queue, compact, universe);
    BfsHead(entries, queue, compact);
    FifoStep(entries, order, queue, compact, queue', compact');
    order' := order + [queue[0]];
  }

  lemma BfsStart(entries: Entries, universe: set<nat>)
    requires universe == entries.items.Keys + {NtfsRootRef}
    ensures Bfs(entries, [Start], Empty()) && Seen([Start], Empty()) <= universe
  {
    RootReachable(entries.items);
    PendingRefsOne(Start);
  }

  /** One iteration of the walk (mft_scanner.py:212-218): take the first
      queued directory, record it unless it is the root, and queue its
      children. */
  method TakeNext(entries: Entries, children: map<nat, seq<(nat, string)>>, queue: seq<Pending>, compact: Entries,
                  ghost universe: set<nat>)
    returns (queue': seq<Pending>, compact': Entries)
    requires entries.Valid() && RootStays(entries.items) && Bfs(entries, queue, compact) && queue != []
    requires forall p :: Children(children, p) == ChildrenIn(entries.keys, entries.items, p)
    requires universe == entries.items.Keys + {NtfsRootRef} && Seen(queue, compact) <= universe
    ensures Bfs(entries, queue', compact') && Seen(queue', compact') <= universe
    ensures queue' == queue[1..] + Pendings(ChildrenIn(entries.keys, entries.items, queue[0].ref), queue[0].ref)
    ensures compact' == if queue[0].ref != NtfsRootRef then compact.Put(queue[0].ref, (queue[0].parent, queue[0].name)) else compact
    ensures !Initial(queue', compact')
    ensures || |universe - Seen(queue', compact')| < |universe - Seen(queue, compact)|
            || (|universe - Seen(queue', compact')| == |universe - Seen(queue, compact)| && |queue'| < |queue|)
  {
    var p := queue[0];
    compact' := compact;
    if p.ref != NtfsRootRef {
      compact' := compact.Put(p.ref, (p.parent, p.name));
    }
    queue' := EnqueueChildren(Children(children, p.ref), p.ref, queue[1..]);
    ghost var added := Pendings(ChildrenIn(entries.keys, entries.items, p.ref), p.ref);
    QueuedFor(entries, p.ref, added);
    BfsStep(entries, queue, compact, added, queue', compact');
    assert PendingRefs(added) <= entries.items.Keys;
    Progress(universe, Seen(queue, compact), Seen(queue', compact'), PendingRefs(added));
    if added == [] {
      assert PendingRefs(added) == {};
      assert |queue'| < |queue|;
    } else {
      assert added[0].ref in PendingRefs(added);
    }
  }

  lemma Progress(u: set<nat>, s: set<nat>, s': set<nat>, grown: set<nat>)
    requires s' == s + grown && s' <= u && grown !! s
    ensures grown == {} ==> |u - s'| == |u - s|
    ensures grown != {} ==> |u - s'| < |u - s|
  {
    if grown != {} {
      var x :| x in grown;
      assert u - s == (u - s') + grown;
      assert (u - s') !! grown;
    }
  }

  /** One iteration keeps the state of the walk and adds to what it has
      seen only references it had not seen. */
  lemma BfsStep(entries: Entries, queue: seq<Pending>, compact: Entries, added: seq<Pending>,
                queue': seq<Pending>, compact': Entries)
    requires entries.Valid() && RootStays(entries.items) && Bfs(entries, queue, compact) && queue != []
    requires added == Pendings(ChildrenIn(entries.keys, entries.items, queue[0].ref), queue[0].ref)
    requires compact' == if queue[0].ref != NtfsRootRef then compact.Put(queue[0].ref, (queue[0].parent, queue[0].name)) else compact
    requires queue' == queue[1..] + added
    ensures Bfs(entries, queue', compact') && !Initial(queue', compact')
    ensures Seen(queue', compact') == Seen(queue, compact) + PendingRefs(added)
    ensures PendingRefs(added) !! Seen(queue, compact)
  {
    if Initial(queue, compact) {
      assert queue == [Start] && queue' == added && compact' == compact;
      InitialStep(entries, compact, added);
    } else {
      LaterStep(entries, queue, compact, added, queue', compact');
    }
  }

  /** The children the root's own iteration queues. */
  lemma InitialStep(entries: Entries, compact: Entries, added: seq<Pending>)
    requires entries.Valid() && RootStays(entries.items) && compact.Valid() && compact.keys == []
    requires added == Pendings(ChildrenIn(entries.keys, entries.items, NtfsRootRef), NtfsRootRef)
    ensures Bfs(entries, added, compact) && added != [Start]
    ensures Seen(added, compact) == Seen([Start], compact) + PendingRefs(added)
    ensures PendingRefs(added) !! Seen([Start], compact)
  {
    var items := entries.items;
    QueuedFor(entries, NtfsRootRef, added);
    RootReachable(items);
    assert compact.items == map[];
    forall j | 0 <= j < |added|
      ensures added[j].ref != NtfsRootRef && Reachable(items, added[j].ref)
    {
      ReachChild(items, added[j].ref);
    }
    assert added != [Start] by {
      assert |added| == 0 || added[0] != Start;
    }
    PendingRefsOne(Start);
  }

  lemma PendingRefsOne(q: Pending)
    ensures PendingRefs([q]) == {q.ref}
  {
    assert [q][0] == q;
  }

  /** No child queued for `queue[0]` has been seen before. */
  lemma Fresh(entries: Entries, queue: seq<Pending>, compact: Entries, added: seq<Pending>)
    requires entries.Valid() && RootStays(entries.items) && Bfs(entries, queue, compact) && queue != []
    requires !Initial(queue, compact)
    requires added == Pendings(ChildrenIn(entries.keys, entries.items, queue[0].ref), queue[0].ref)
    ensures forall j | 0 <= j < |added| :: added[j].ref !in Seen(queue, compact)
  {
    var items := entries.items;
    var d := queue[0];
    assert QueuedTrue(items, d, compact);
    QueuedFor(entries, d.ref, added);
    ParentsInCompact(compact);
    assert Reachable(items, d.ref);
    forall j | 0 <= j < |added| ensures added[j].ref !in Seen(queue, compact)
    {
      var c := added[j].ref;
      assert items[c].0 == d.ref && !Dollar(items[c].1);
    }
  }

  /** Each key's parent is the root or a key. */
  lemma ParentsInCompact(c: Entries)
    requires ParentsFirst(c) && c.Valid()
    ensures forall k | k in c.items :: c.items[k].0 == NtfsRootRef || c.items[k].0 in c.items
  {
    forall k | k in c.items ensures c.items[k].0 == NtfsRootRef || c.items[k].0 in c.items
    {
      KeysCover(c, k);
      var i :| 0 <= i < |c.keys| && c.keys[i] == k;
      assert c.items[c.keys[i]].0 == NtfsRootRef || c.items[c.keys[i]].0 in c.keys[..i];
    }
  }

  /** An iteration after the root's. */
  lemma LaterStep(entries: Entries, queue: seq<Pending>, compact: Entries, added: seq<Pending>,
                  queue': seq<Pending>, compact': Entries)
    requires entries.Valid() && RootStays(entries.items) && Bfs(entries, queue, compact) && queue != []
    requires !Initial(queue, compact)
    requires added == Pendings(ChildrenIn(entries.keys, entries.items, queue[0].ref), queue[0].ref)
    requires compact' == compact.Put(queue[0].ref, (queue[0].parent, queue[0].name))
    requires queue' == queue[1..] + added
    ensures Bfs(entries, queue', compact') && !Initial(queue', compact')
    ensures Seen(queue', compact') == Seen(queue, compact) + PendingRefs(added)
    ensures PendingRefs(added) !! Seen(queue, compact)
  {
    var items := entries.items;
    var d := queue[0];
    var rest := queue[1..];
    assert QueuedTrue(items, d, compact);
    QueuedFor(entries, d.ref, added);
    Fresh(entries, queue, compact, added);
    CompactGrows(entries, compact, d, compact');
    QueueStep(entries, queue, compact, added, queue', compact');
    QueueDistinct(queue, compact, added, queue');
    assert !Initial(queue', compact');
    SeenStep(queue, compact, queue', compact', added);
    ClosedStep(entries, queue, compact, added, queue', compact');
  }

  /** Taking a queued directory appends it to the compact map, after its
      parent. */
  lemma CompactGrows(entries: Entries, compact: Entries, d: Pending, compact': Entries)
    requires compact.Valid() && ParentsFirst(compact)
    requires forall k | k in compact.items ::
               k in entries.items && compact.items[k] == entries.items[k] && Reachable(entries.items, k)
    requires QueuedTrue(entries.items, d, compact) && d.ref !in compact.items && Reachable(entries.items, d.ref)
    requires compact' == compact.Put(d.ref, (d.parent, d.name))
    ensures compact'.Valid() && ParentsFirst(compact')
    ensures forall k | k in compact'.items ::
              k in entries.items && compact'.items[k] == entries.items[k] && Reachable(entries.items, k)
    ensures compact'.keys == compact.keys + [d.ref] && compact'.items.Keys == compact.items.Keys + {d.ref}
  {
    var n := |compact.keys|;
    forall i | 0 <= i < |compact'.keys|
      ensures compact'.keys[i] in compact'.items
      ensures compact'.items[compact'.keys[i]].0 == NtfsRootRef || compact'.items[compact'.keys[i]].0 in compact'.keys[..i]
    {
      if i < n {
        assert compact'.keys[i] == compact.keys[i] && compact'.keys[..i] == compact.keys[..i];
      } else {
        assert compact'.keys[..i] == compact.keys;
        if d.parent != NtfsRootRef {
          KeysCover(compact, d.parent);
        }
      }
    }
  }

  lemma PendingRefsConcat(a: seq<Pending>, b: seq<Pending>)
    ensures PendingRefs(a + b) == PendingRefs(a) + PendingRefs(b)
  {
    var ab := a + b;
    forall x | x in PendingRefs(a) ensures x in PendingRefs(ab) {
      var i :| 0 <= i < |a| && a[i].ref == x;
      assert ab[i] == a[i];
    }
    forall x | x in PendingRefs(ab) ensures x in PendingRefs(a) + PendingRefs(b) {
      var i :| 0 <= i < |ab| && ab[i].ref == x;
      if i >= |a| {
        assert b[i - |a|] == ab[i];
      }
    }
    forall x | x in PendingRefs(b) ensures x in PendingRefs(ab) {
      var i :| 0 <= i < |b| && b[i].ref == x;
      assert ab[|a| + i] == b[i];
    }
  }

  lemma PendingRefsCons(q: seq<Pending>)
    requires q != []
    ensures PendingRefs(q) == {q[0].ref} + PendingRefs(q[1..])
  {
    assert q == [q[0]] + q[1..];
    PendingRefsConcat([q[0]], q[1..]);
  }

  /** The queue after an iteration after the root's: what remains, then
      the new children; none of them taken yet, all reachable and true to
      `entries`. */
  lemma QueueStep(entries: Entries, queue: seq<Pending>, compact: Entries, added: seq<Pending>,
                  queue': seq<Pending>, compact': Entries)
    requires entries.Valid() && queue != []
    requires forall i | 0 <= i < |queue| ::
               queue[i].ref !in compact.items && Reachable(entries.items, queue[i].ref)
               && QueuedTrue(entries.items, queue[i], compact)
    requires forall i, j | 0 <= i < j < |queue| :: queue[i].ref != queue[j].ref
    requires added == Pendings(ChildrenIn(entries.keys, entries.items, queue[0].ref), queue[0].ref)
    requires forall j | 0 <= j < |added| :: added[j].ref !in Seen(queue, compact)
    requires compact'.items.Keys == compact.items.Keys + {queue[0].ref}
    requires queue' == queue[1..] + added
    ensures forall i | 0 <= i < |queue'| ::
              queue'[i].ref !in compact'.items && Reachable(entries.items, queue'[i].ref)
              && QueuedTrue(entries.items, queue'[i], compact')
  {
    var items := entries.items;
    var d := queue[0];
    var rest := queue[1..];
    QueuedFor(entries, d.ref, added);
    forall i | 0 <= i < |queue'|
      ensures queue'[i].ref !in compact'.items && Reachable(items, queue'[i].ref)
      ensures QueuedTrue(items, queue'[i], compact')
    {
      if i < |rest| {
        assert queue'[i] == queue[i + 1];
        assert QueuedTrue(items, queue[i + 1], compact);
      } else {
        var j := i - |rest|;
        assert queue'[i] == added[j];
        assert added[j].ref !in Seen(queue, compact);
        ReachChild(items, added[j].ref);
      }
    }
  }

  /** The new queue holds no reference twice. */
  lemma QueueDistinct(queue: seq<Pending>, compact: Entries, added: seq<Pending>, queue': seq<Pending>)
    requires queue != [] && forall i, j | 0 <= i < j < |queue| :: queue[i].ref != queue[j].ref
    requires forall j, l | 0 <= j < l < |added| :: added[j].ref != added[l].ref
    requires forall j | 0 <= j < |added| :: added[j].ref !in Seen(queue, compact)
    requires queue' == queue[1..] + added
    ensures forall i, j | 0 <= i < j < |queue'| :: queue'[i].ref != queue'[j].ref
  {
    var rest := queue[1..];
    forall i, j | 0 <= i < j < |queue'| ensures queue'[i].ref != queue'[j].ref
    {
      if j < |rest| {
        assert queue'[i] == queue[i + 1] && queue'[j] == queue[j + 1];
      } else if i >= |rest| {
        assert queue'[i] == added[i - |rest|] && queue'[j] == added[j - |rest|];
      } else {
        assert queue'[i] == queue[i + 1] && queue'[j] == added[j - |rest|];
        assert queue[i + 1].ref in PendingRefs(queue);
      }
    }
  }

  /** What the walk has seen grows by the queued children. */
  lemma SeenStep(queue: seq<Pending>, compact: Entries, queue': seq<Pending>, compact': Entries, added: seq<Pending>)
    requires queue != [] && queue' == queue[1..] + added
    requires compact'.items.Keys == compact.items.Keys + {queue[0].ref}
    requires forall j | 0 <= j < |added| :: added[j].ref !in Seen(queue, compact)
    ensures Seen(queue', compact') == Seen(queue, compact) + PendingRefs(added)
    ensures PendingRefs(added) !! Seen(queue, compact)
  {
    PendingRefsConcat(queue[1..], added);
    PendingRefsCons(queue);
  }

  /** The children of the directory just taken are queued, so closure
      extends to it. */
  lemma ClosedStep(entries: Entries, queue: seq<Pending>, compact: Entries, added: seq<Pending>,
                   queue': seq<Pending>, compact': Entries)
    requires entries.Valid() && queue != [] && Closed(entries.items, queue, compact)
    requires added == Pendings(ChildrenIn(entries.keys, entries.items, queue[0].ref), queue[0].ref)
    requires compact'.items.Keys == compact.items.Keys + {queue[0].ref}
    requires queue' == queue[1..] + added
    ensures Closed(entries.items, queue', compact')
  {
    var items := entries.items;
    var d := queue[0];
    QueuedFor(entries, d.ref, added);
    PendingRefsConcat(queue[1..], added);
    PendingRefsCons(queue);
    forall c | c in items && !Dollar(items[c].1) && (items[c].0 == NtfsRootRef || items[c].0 in compact'.items)
      ensures c == NtfsRootRef || c in compact'.items || c in PendingRefs(queue')
    {
      if items[c].0 == d.ref {
        assert c in PendingRefs(added);
      }
    }
  }

  /** With the queue empty, what is reachable has been taken. */
  lemma {:induction false} ClosedReach(items: map<nat, (nat, string)>, compact: Entries, k: nat, n: nat)
    requires Closed(items, [], compact) && ReachIn(items, k, n)
    ensures k == NtfsRootRef || k in compact.items
    decreases n
  {
    if k != NtfsRootRef {
      ClosedReach(items, compact, items[k].0, n - 1);
      assert PendingRefs([]) == {};
    }
  }

  lemma BfsDone(entries: Entries, compact: Entries)
    requires Bfs(entries, [], compact)
    ensures forall k :: k in compact.items <==> k != NtfsRootRef && Reachable(entries.items, k)
  {
    assert !Initial([], compact);
    forall k | k != NtfsRootRef && Reachable(entries.items, k) ensures k in compact.items {
      var n: nat :| ReachIn(entries.items, k, n);
      ClosedReach(entries.items, compact, k, n);
    }
  }

  // ---------------------------------------------------------------------
  // The order of the queue

  /** What the loop over `children_of` appends when `p` is taken. */
  function QueuedBy(entries: Entries, p: Pending): seq<Pending>
    requires entries.Valid()
  {
    Pendings(ChildrenIn(entries.keys, entries.items, p.ref), p.ref)
  }

  /** What the loop over `children_of` appends to the queue while the
      entries `taken` are taken from it, in that order. */
  function Appended(entries: Entries, taken: seq<Pending>): seq<Pending>
    requires entries.Valid()
  {
    if taken == [] then []
    else
      var n := |taken| - 1;
      Appended(entries, taken[..n]) + QueuedBy(entries, taken[n])
  }

  /** `order` is the sequence in which `queue.pop(0)` takes the entries of
      a complete walk: the start entry, then everything appended, in the
      order it was appended, each entry appended by one taken before it. */
  predicate FifoOrder(entries: Entries, order: seq<Pending>)
    requires entries.Valid()
  {
    && order == [Start] + Appended(entries, order)
    && forall j | 1 <= j < |order| :: j <= |Appended(entries, order[..j])|
  }

  /** The references of the queue entries, in order. */
  function Refs(q: seq<Pending>): (r: seq<nat>)
    ensures |r| == |q| && forall i | 0 <= i < |q| :: r[i] == q[i].ref
  {
    if q == [] then [] else [q[0].ref] + Refs(q[1..])
  }

  /** The keys of the compact map are the references the walk takes after
      the root, in the order it takes them. */
  ghost predicate BfsKeys(entries: Entries, keys: seq<nat>)
  {
    entries.Valid() && exists order :: FifoOrder(entries, order) && keys == Refs(order[1..])
  }

  /** The invariant of the loop about order: `order` has been taken, the
      taken entries and the queue together are the start entry and what
      was appended, and the compact map's keys are the taken references
      after the root. */
  ghost predicate Fifo(entries: Entries, order: seq<Pending>, queue: seq<Pending>, compact: Entries)
  {
    && entries.Valid()
    && order + queue == [Start] + Appended(entries, order)
    && (forall j | 1 <= j < |order| :: j <= |Appended(entries, order[..j])|)
    && if order == [] then Initial(queue, compact) else !Initial(queue, compact) && compact.keys == Refs(order[1..])
  }

  /** What the order invariant needs of the walk's state: the first queued
      directory has not been taken, and it is the root only at the start. */
  lemma BfsHead(entries: Entries, queue: seq<Pending>, compact: Entries)
    requires Bfs(entries, queue, compact) && queue != []
    ensures compact.Valid() && queue[0].ref !in compact.items
    ensures !Initial(queue, compact) ==> queue[0].ref != NtfsRootRef
  {
    if !Initial(queue, compact) {
      assert QueuedTrue(entries.items, queue[0], compact);
    }
  }

  lemma FifoStart(entries: Entries)
    requires entries.Valid()
    ensures Fifo(entries, [], [Start], Empty())
  {
  }

  lemma AppendedSnoc(entries: Entries, taken: seq<Pending>, p: Pending)
    requires entries.Valid()
    ensures Appended(entries, taken + [p]) == Appended(entries, taken) + QueuedBy(entries, p)
  {
    assert (taken + [p])[..|taken|] == taken;
  }

  /** Taking the first queued entry keeps the order invariant. */
  lemma FifoStep(entries: Entries, order: seq<Pending>, queue: seq<Pending>, compact: Entries,
                 queue': seq<Pending>, compact': Entries)
    requires queue != [] && Fifo(entries, order, queue, compact) && compact.Valid()
    requires queue[0].ref !in compact.items && (!Initial(queue, compact) ==> queue[0].ref != NtfsRootRef)
    requires queue' == queue[1..] + Pendings(ChildrenIn(entries.keys, entries.items, queue[0].ref), queue[0].ref)
    requires compact' == if queue[0].ref != NtfsRootRef then compact.Put(queue[0].ref, (queue[0].parent, queue[0].name)) else compact
    requires !Initial(queue', compact')
    ensures Fifo(entries, order + [queue[0]], queue', compact')
  {
    var p := queue[0];
    FifoQueue(entries, order, queue, queue');
    FifoTaken(entries, order, |order| + |queue|, p);
    FifoKeys(entries, order, queue, compact, compact');
  }

  /** The compact map's keys after a step are the taken references after
      the root. */
  lemma FifoKeys(entries: Entries, order: seq<Pending>, queue: seq<Pending>, compact: Entries, compact': Entries)
    requires queue != [] && compact.Valid() && queue[0].ref !in compact.items
    requires order == [] ==> Initial(queue, compact)
    requires order != [] ==> queue[0].ref != NtfsRootRef && compact.keys == Refs(order[1..])
    requires compact' == if queue[0].ref != NtfsRootRef then compact.Put(queue[0].ref, (queue[0].parent, queue[0].name)) else compact
    ensures compact'.keys == Refs((order + [queue[0]])[1..])
  {
    var p := queue[0];
    if order != [] {
      assert (order + [p])[1..] == order[1..] + [p];
      RefsSnoc(order[1..], p);
    } else {
      assert (order + [p])[1..] == [];
    }
  }

  /** The taken entries and the queue after a step. */
  lemma FifoQueue(entries: Entries, order: seq<Pending>, queue: seq<Pending>, queue': seq<Pending>)
    requires entries.Valid() && queue != [] && order + queue == [Start] + Appended(entries, order)
    requires queue' == queue[1..] + Pendings(ChildrenIn(entries.keys, entries.items, queue[0].ref), queue[0].ref)
    ensures order + [queue[0]] + queue' == [Start] + Appended(entries, order + [queue[0]])
  {
    AppendedSnoc(entries, order, queue[0]);
    MoveHead(order, queue, QueuedBy(entries, queue[0]), [Start], Appended(entries, order));
  }

  /** Moving the head of the queue to the taken entries, with `pend`
      appended on both sides. */
  lemma MoveHead<T>(order: seq<T>, queue: seq<T>, pend: seq<T>, start: seq<T>, before: seq<T>)
    requires queue != [] && order + queue == start + before
    ensures order + [queue[0]] + (queue[1..] + pend) == start + (before + pend)
  {
    assert queue == [queue[0]] + queue[1..];
    calc {
      order + [queue[0]] + (queue[1..] + pend);
      (order + queue) + pend;
      start + (before + pend);
    }
  }

  /** An entry taken from a non-empty queue was appended before. */
  lemma FifoTaken(entries: Entries, order: seq<Pending>, total: nat, p: Pending)
    requires entries.Valid() && (forall j | 1 <= j < |order| :: j <= |Appended(entries, order[..j])|)
    requires total == 1 + |Appended(entries, order)| && |order| < total
    ensures forall j | 1 <= j < |order + [p]| :: j <= |Appended(entries, (order + [p])[..j])|
  {
    var order' := order + [p];
    forall j | 1 <= j < |order'| ensures j <= |Appended(entries, order'[..j])|
    {
      if j < |order| {
        assert order'[..j] == order[..j];
      } else {
        assert order'[..j] == order;
      }
    }
  }

  lemma RefsSnoc(q: seq<Pending>, p: Pending)
    ensures Refs(q + [p]) == Refs(q) + [p.ref]
  {
  }

  /** With the queue empty, the taken entries are the walk's whole order. */
  lemma FifoDone(entries: Entries, order: seq<Pending>, compact: Entries)
    requires Fifo(entries, order, [], compact)
    ensures BfsKeys(entries, compact.keys)
  {
    assert order == order + [];
    assert FifoOrder(entries, order);
  }

  /** What the first `i` taken entries appended comes first in what all of
      them appended. */
  lemma {:induction false} AppendedPrefix(entries: Entries, taken: seq<Pending>, i: nat)
    requires entries.Valid() && i <= |taken|
    ensures Appended(entries, taken[..i]) <= Appended(entries, taken)
  {
    if i < |taken| {
      var n := |taken| - 1;
      AppendedPrefix(entries, taken[..n], i);
      assert taken[..n][..i] == taken[..i];
    } else {
      assert taken[..i] == taken;
    }
  }

  /** Entry `j` after the start was appended by the `j` entries before it. */
  lemma FifoAt(entries: Entries, order: seq<Pending>, j: nat)
    requires entries.Valid() && FifoOrder(entries, order) && 1 <= j < |order|
    ensures j <= |Appended(entries, order[..j])| && order[j] == Appended(entries, order[..j])[j - 1]
  {
    AppendedPrefix(entries, order, j);
    assert order[j] == Appended(entries, order)[j - 1];
  }

  lemma {:induction false} FifoAgree(entries: Entries, o1: seq<Pending>, o2: seq<Pending>, k: nat)
    requires entries.Valid() && FifoOrder(entries, o1) && FifoOrder(entries, o2)
    requires k <= |o1| && k <= |o2|
    ensures o1[..k] == o2[..k]
  {
    if k > 0 {
      var j := k - 1;
      FifoAgree(entries, o1, o2, j);
      FifoSame(entries, o1, o2, j);
      assert o1[..k] == o1[..j] + [o1[j]] && o2[..k] == o2[..j] + [o2[j]];
    }
  }

  /** Two orders that agree before position `j` agree at `j`. */
  lemma FifoSame(entries: Entries, o1: seq<Pending>, o2: seq<Pending>, j: nat)
    requires entries.Valid() && FifoOrder(entries, o1) && FifoOrder(entries, o2)
    requires j < |o1| && j < |o2| && o1[..j] == o2[..j]
    ensures o1[j] == o2[j]
  {
    if j == 0 {
      assert o1[0] == Start && o2[0] == Start;
    } else {
      FifoAt(entries, o1, j);
      FifoAt(entries, o2, j);
    }
  }

  /** The walk's order is determined by the entries. */
  lemma FifoOrderUnique(entries: Entries, o1: seq<Pending>, o2: seq<Pending>)
    requires entries.Valid() && FifoOrder(entries, o1) && FifoOrder(entries, o2)
    ensures o1 == o2
  {
    var m := if |o1| <= |o2| then |o1| else |o2|;
    FifoAgree(entries, o1, o2, m);
    assert o1[..|o1|] == o1 && o2[..|o2|] == o2;
    // A longer order would take an entry that the shorter one, which
    // appended one entry fewer than its length, never appended.
    assert Appended(entries, o1[..m]) == Appended(entries, o2[..m]);
  }

  /** So the key sequence of the compact map is determined too. */
  lemma BfsKeysUnique(entries: Entries, k1: seq<nat>, k2: seq<nat>)
    requires BfsKeys(entries, k1) && BfsKeys(entries, k2)
    ensures k1 == k2
  {
    var o1 :| FifoOrder(entries, o1) && k1 == Refs(o1[1..]);
    var o2 :| FifoOrder(entries, o2) && k2 == Refs(o2[1..]);
    FifoOrderUnique(entries, o1, o2);
  }

  /** Directories 10 "A" and 11 "B" under the root and 12 "C" under 10:
      the queue takes 10 and 11 before 12, so `[10, 11, 12]` is the only key
      sequence, though `[10, 12, 11]` also puts every parent first. */
  lemma SampleBfsKeys()
    ensures var e := Dict([10, 11, 12], map[10 := (NtfsRootRef, "A"), 11 := (NtfsRootRef, "B"), 12 := (10, "C")]);
      && e.Valid()
      && forall keys :: BfsKeys(e, keys) <==> keys == [10, 11, 12]
  {
    var e := Dict([10, 11, 12], map[10 := (NtfsRootRef, "A"), 11 := (NtfsRootRef, "B"), 12 := (10, "C")]);
    SampleQueued(e);
    var order := SampleOrder(e);
    assert BfsKeys(e, [10, 11, 12]);
    forall ks | BfsKeys(e, ks) ensures ks == [10, 11, 12] {
      BfsKeysUnique(e, ks, [10, 11, 12]);
    }
  }

  lemma SampleOrder(e: Entries) returns (order: seq<Pending>)
    requires e.Valid()
    requires Pendings(ChildrenIn(e.keys, e.items, NtfsRootRef), NtfsRootRef)
             == [Pending(10, NtfsRootRef, "A"), Pending(11, NtfsRootRef, "B")]
    requires Pendings(ChildrenIn(e.keys, e.items, 10), 10) == [Pending(12, 10, "C")]
    requires Pendings(ChildrenIn(e.keys, e.items, 11), 11) == []
    requires Pendings(ChildrenIn(e.keys, e.items, 12), 12) == []
    ensures FifoOrder(e, order) && Refs(order[1..]) == [10, 11, 12]
  {
    var a, b, c := Pending(10, NtfsRootRef, "A"), Pending(11, NtfsRootRef, "B"), Pending(12, 10, "C");
    assert QueuedBy(e, Start) == [a, b] && QueuedBy(e, a) == [c] && QueuedBy(e, b) == [] && QueuedBy(e, c) == [];
    order := [Start, a, b, c];
    FifoFour(e, a, b, c);
    SampleRefs(a, b, c);
  }

  /** The start entry queues `a` and `b`, `a` queues `c`, and the others
      nothing: then the walk takes them in the order start, `a`, `b`, `c`. */
  lemma FifoFour(e: Entries, a: Pending, b: Pending, c: Pending)
    requires e.Valid()
    requires QueuedBy(e, Start) == [a, b] && QueuedBy(e, a) == [c] && QueuedBy(e, b) == [] && QueuedBy(e, c) == []
    ensures FifoOrder(e, [Start, a, b, c]) && [Start, a, b, c][1..] == [a, b, c]
  {
    var order := [Start, a, b, c];
    AppendedFour(e, Start, a, b, c);
    assert Appended(e, order) == [a, b, c];
    assert order == [Start] + [a, b, c];
    assert |Appended(e, [Start])| == 2 && |Appended(e, [Start, a])| == 3 && |Appended(e, [Start, a, b])| == 3;
    forall j | 1 <= j < |order| ensures j <= |Appended(e, order[..j])|
    {
      if j == 1 {
        assert order[..j] == [Start];
      } else if j == 2 {
        assert order[..j] == [Start, a];
      } else {
        assert order[..j] == [Start, a, b];
      }
    }
  }

  /** `Appended` over four taken entries. */
  lemma AppendedFour(e: Entries, p0: Pending, p1: Pending, p2: Pending, p3: Pending)
    requires e.Valid()
    ensures Appended(e, [p0]) == QueuedBy(e, p0)
    ensures Appended(e, [p0, p1]) == QueuedBy(e, p0) + QueuedBy(e, p1)
    ensures Appended(e, [p0, p1, p2]) == QueuedBy(e, p0) + QueuedBy(e, p1) + QueuedBy(e, p2)
    ensures Appended(e, [p0, p1, p2, p3]) == QueuedBy(e, p0) + QueuedBy(e, p1) + QueuedBy(e, p2) + QueuedBy(e, p3)
  {
    AppendedSnoc(e, [], p0);
    assert [] + [p0] == [p0];
    AppendedSnoc(e, [p0], p1);
    assert [p0] + [p1] == [p0, p1];
    AppendedSnoc(e, [p0, p1], p2);
    assert [p0, p1] + [p2] == [p0, p1, p2];
    AppendedSnoc(e, [p0, p1, p2], p3);
    assert [p0, p1, p2] + [p3] == [p0, p1, p2, p3];
  }

  lemma SampleRefs(a: Pending, b: Pending, c: Pending)
    requires a.ref == 10 && b.ref == 11 && c.ref == 12
    ensures Refs([a, b, c]) == [10, 11, 12]
  {
    var r := Refs([a, b, c]);
    assert |r| == 3 && r[0] == 10 && r[1] == 11 && r[2] == 12;
  }

  /** What each directory of the sample queues. */
  lemma SampleQueued(e: Entries)
    requires e == Dict([10, 11, 12], map[10 := (NtfsRootRef, "A"), 11 := (NtfsRootRef, "B"), 12 := (10, "C")])
    ensures e.Valid()
    ensures Pendings(ChildrenIn(e.keys, e.items, NtfsRootRef), NtfsRootRef)
            == [Pending(10, NtfsRootRef, "A"), Pending(11, NtfsRootRef, "B")]
    ensures Pendings(ChildrenIn(e.keys, e.items, 10), 10) == [Pending(12, 10, "C")]
    ensures Pendings(ChildrenIn(e.keys, e.items, 11), 11) == []
    ensures Pendings(ChildrenIn(e.keys, e.items, 12), 12) == []
  {
    assert e.items.Keys == {10, 11, 12};
    SampleRootQueued(e);
    SampleInnerQueued(e);
    SampleLeafQueued(e, 11);
    SampleLeafQueued(e, 12);
  }

  lemma SampleRootQueued(e: Entries)
    requires e == Dict([10, 11, 12], map[10 := (NtfsRootRef, "A"), 11 := (NtfsRootRef, "B"), 12 := (10, "C")])
    ensures Pendings(ChildrenIn(e.keys, e.items, NtfsRootRef), NtfsRootRef)
            == [Pending(10, NtfsRootRef, "A"), Pending(11, NtfsRootRef, "B")]
  {
    ChildrenOfThree(e.items, 10, 11, 12, NtfsRootRef);
    var kids := [(10, "A"), (11, "B")];
    assert ChildrenIn(e.keys, e.items, NtfsRootRef) == kids;
    assert kids[..1] == [(10, "A")] && [(10, "A")][..0] == [];
    assert Pendings([(10, "A")], NtfsRootRef) == [Pending(10, NtfsRootRef, "A")];
  }

  lemma SampleInnerQueued(e: Entries)
    requires e == Dict([10, 11, 12], map[10 := (NtfsRootRef, "A"), 11 := (NtfsRootRef, "B"), 12 := (10, "C")])
    ensures Pendings(ChildrenIn(e.keys, e.items, 10), 10) == [Pending(12, 10, "C")]
  {
    ChildrenOfThree(e.items, 10, 11, 12, 10);
    assert ChildrenIn(e.keys, e.items, 10) == [(12, "C")];
    assert [(12, "C")][..0] == [];
  }

  lemma SampleLeafQueued(e: Entries, p: nat)
    requires e == Dict([10, 11, 12], map[10 := (NtfsRootRef, "A"), 11 := (NtfsRootRef, "B"), 12 := (10, "C")])
    requires p == 11 || p == 12
    ensures Pendings(ChildrenIn(e.keys, e.items, p), p) == []
  {
    ChildrenOfThree(e.items, 10, 11, 12, p);
  }

  lemma ChildrenOfThree(items: map<nat, (nat, string)>, k1: nat, k2: nat, k3: nat, p: nat)
    requires k1 in items && k2 in items && k3 in items
    ensures ChildrenIn([k1, k2, k3], items, p)
            == (if items[k1].0 == p then [(k1, items[k1].1)] else [])
               + (if items[k2].0 == p then [(k2, items[k2].1)] else [])
               + (if items[k3].0 == p then [(k3, items[k3].1)] else [])
  {
    var one := if items[k1].0 == p then [(k1, items[k1].1)] else [];
    var two := if items[k2].0 == p then [(k2, items[k2].1)] else [];
    var three := if items[k3].0 == p then [(k3, items[k3].1)] else [];
    assert [k1][..0] == [];
    assert ChildrenIn([k1], items, p) == one;
    assert [k1, k2][..1] == [k1];
    assert ChildrenIn([k1, k2], items, p) == one + two;
    assert [k1, k2, k3][..2] == [k1, k2];
  }

  // ---------------------------------------------------------------------
  // _get_dir_full_path

  /** The first position of `k` in `keys`. */
  function IndexIn(keys: seq<nat>, k: nat): (i: nat)
    requires k in keys
    ensures i < |keys| && keys[i] == k && k !in keys[..i]
  {
    if keys[0] == k then 0 else 1 + IndexIn(keys[1..], k)
  }

  /** The names from the root down to `r`, `r`'s own last; empty for a
      reference that is not in the compact map. */
  function PathParts(c: Entries, r: nat): seq<string>
    requires c.Valid() && ParentsFirst(c)
    decreases if r in c.keys then IndexIn(c.keys, r) + 1 else 0
  {
    if r !in c.items then []
    else
      ParentEarlier(c, r);
      var p := c.items[r].0;
      PathParts(c, p) + [c.items[r].1]
  }

  /** The full path of a directory reference: the root path for the root,
      otherwise the root path, a backslash and the names joined by
      backslashes. */
  function DirPath(c: Entries, root: string, r: nat): string
    requires c.Valid() && ParentsFirst(c)
  {
    if r == NtfsRootRef then root else root + "\\" + Join("\\", PathParts(c, r))
  }

  /** A directory's path is its parent's path, a backslash and its name. */
  lemma ChildPath(c: Entries, root: string, k: nat)
    requires c.Valid() && ParentsFirst(c) && k in c.items
    ensures DirPath(c, root, k) == DirPath(c, root, c.items[k].0) + "\\" + c.items[k].1
  {
    var p := c.items[k].0;
    var name := c.items[k].1;
    assert PathParts(c, k) == PathParts(c, p) + [name];
    if p != NtfsRootRef {
      ParentsInCompact(c);
      assert PathParts(c, p) == PathParts(c, c.items[p].0) + [c.items[p].1];
      JoinSnoc("\\", PathParts(c, p), name);
    } else {
      assert PathParts(c, k) == [name];
    }
  }

  /** A key's parent is the root, which is not a key, or a key at an
      earlier position. */
  lemma ParentEarlier(c: Entries, r: nat)
    requires c.Valid() && ParentsFirst(c) && r in c.items
    ensures r in c.keys
    ensures var p := c.items[r].0; p !in c.keys || IndexIn(c.keys, p) < IndexIn(c.keys, r)
  {
    KeysCover(c, r);
    var i := IndexIn(c.keys, r);
    var p := c.items[r].0;
    assert p == NtfsRootRef || p in c.keys[..i];
    if p in c.keys[..i] {
      var j :| 0 <= j < i && c.keys[..i][j] == p;
      IndexInFirst(c.keys, p, j);
    }
  }

  lemma {:induction false} IndexInFirst(keys: seq<nat>, k: nat, j: nat)
    requires j < |keys| && keys[j] == k
    ensures IndexIn(keys, k) <= j
  {
    if keys[0] != k {
      IndexInFirst(keys[1..], k, j - 1);
    }
  }

  function Reverse<T>(s: seq<T>): (r: seq<T>)
    ensures |r| == |s|
  {
    if s == [] then [] else Reverse(s[1..]) + [s[0]]
  }

  lemma {:induction false} ReverseSnoc<T>(s: seq<T>, x: T)
    ensures Reverse(s + [x]) == [x] + Reverse(s)
  {
    if s != [] {
      assert (s + [x])[1..] == s[1..] + [x];
      ReverseSnoc(s[1..], x);
    } else {
      assert Reverse([x]) == Reverse([x][1..]) + [x];
    }
  }

  /** One step of the walk towards the root keeps the collected names,
      reversed, the tail of the path. */
  lemma WalkUp(c: Entries, ref: nat, r: nat, parts: seq<string>)
    requires c.Valid() && ParentsFirst(c) && r in c.items
    requires PathParts(c, ref) == PathParts(c, r) + Reverse(parts)
    ensures PathParts(c, ref) == PathParts(c, c.items[r].0) + Reverse(parts + [c.items[r].1])
  {
    var (p, name) := c.items[r];
    var above, below := PathParts(c, p), Reverse(parts);
    assert PathParts(c, r) == above + [name];
    ReverseSnoc(parts, name);
    SeqAssoc(above, [name], below);
  }

  lemma SeqAssoc<T>(a: seq<T>, b: seq<T>, c: seq<T>)
    ensures a + b + c == a + (b + c)
  {
  }

  /** `_get_dir_full_path`: follow the parents while the reference is in
      the compact map, collecting names, then join them reversed. */
  method GetDirFullPath(ref: nat, compact: Entries, root: string) returns (path: string)
    requires compact.Valid() && ParentsFirst(compact)
    ensures path == DirPath(compact, root, ref)
  {
    if ref == NtfsRootRef {
      return root;
    }
    var parts: seq<string> := [];
    var r := ref;
    while r in compact.items
      invariant PathParts(compact, ref) == PathParts(compact, r) + Reverse(parts)
      decreases if r in compact.keys then IndexIn(compact.keys, r) + 1 else 0
    {
      var (parentRef, name) := compact.items[r];
      ParentEarlier(compact, r);
      WalkUp(compact, ref, r, parts);
      parts := parts + [name];
      r := parentRef;
    }
    assert PathParts(compact, r) == [];
    assert [] + Reverse(parts) == Reverse(parts);
    parts := Reverse(parts);
    path := root + "\\" + Join("\\", parts);
  }

  /** A volume root "C:" with directory 12 named "Projects" directly under
      the NTFS root and directory 40 named "src" under 12. */
  lemma SamplePaths()
    ensures var c := Dict([12, 40], map[12 := (NtfsRootRef, "Projects"), 40 := (12, "src")]);
      && c.Valid() && ParentsFirst(c)
      && DirPath(c, "C:", NtfsRootRef) == "C:"
      && DirPath(c, "C:", 12) == "C:\\Projects"
      && DirPath(c, "C:", 40) == "C:\\Projects\\src"
  {
    var c := Dict([12, 40], map[12 := (NtfsRootRef, "Projects"), 40 := (12, "src")]);
    assert c.keys[..1] == [12];
    assert ParentsFirst(c);
    ChildPath(c, "C:", 12);
    ChildPath(c, "C:", 40);
  }
}
