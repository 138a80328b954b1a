/**
 * What `get_path_str` produces, stated against the shape of the namespace:
 * which slots the collect pass writes, when it stops or crosses a mount, what
 * the emit pass makes of the slots, and the resulting path for chains of
 * ordinary entries within one mount, across one mount boundary, and beyond
 * the 20-component bound.
 */
module PathProperties {
  import opened Wrappers
  import opened Buffers
  import opened Kernel
  import opened PathResolver

  /** A path given root first: "/" followed by each component. */
  function JoinPath(components: seq<seq<byte>>): seq<byte>
  {
    if components == [] then [] else SLASH + components[0] + JoinPath(components[1..])
  }

  function Reverse<T>(s: seq<T>): seq<T>
  {
    if s == [] then [] else Reverse(s[1..]) + [s[0]]
  }

  /** The non-empty slots, in index order. */
  function NonEmpty(slots: seq<seq<byte>>): seq<seq<byte>>
  {
    if slots == [] then []
    else (if |slots[0]| == 0 then [] else [slots[0]]) + NonEmpty(slots[1..])
  }

  // ---------------------------------------------------------------------------
  // Sequence facts

  lemma {:induction false} JoinAppend(p: seq<seq<byte>>, q: seq<seq<byte>>)
    ensures JoinPath(p + q) == JoinPath(p) + JoinPath(q)
    decreases |p|
  {
    if p == [] {
      assert p + q == q;
    } else {
      assert (p + q)[1..] == p[1..] + q;
      JoinAppend(p[1..], q);
      AppendAssoc(SLASH + p[0], JoinPath(p[1..]), JoinPath(q));
    }
  }

  lemma {:induction false} ReverseAppend<T>(a: seq<T>, b: seq<T>)
    ensures Reverse(a + b) == Reverse(b) + Reverse(a)
    decreases |a|
  {
    if a == [] {
      assert a + b == b;
    } else {
      assert (a + b)[1..] == a[1..] + b;
      ReverseAppend(a[1..], b);
    }
  }

  lemma {:induction false} NonEmptyAppend(a: seq<seq<byte>>, b: seq<seq<byte>>)
    ensures NonEmpty(a + b) == NonEmpty(a) + NonEmpty(b)
    decreases |a|
  {
    if a == [] {
      assert a + b == b;
    } else {
      assert (a + b)[1..] == a[1..] + b;
      NonEmptyAppend(a[1..], b);
    }
  }

  /** Empty slots contribute nothing; non-empty ones are all kept. */
  lemma {:induction false} NonEmptyOf(s: seq<seq<byte>>)
    ensures (forall k :: 0 <= k < |s| ==> s[k] == []) ==> NonEmpty(s) == []
    ensures (forall k :: 0 <= k < |s| ==> s[k] != []) ==> NonEmpty(s) == s
  {
    if s != [] {
      NonEmptyOf(s[1..]);
      assert s == [s[0]] + s[1..];
    }
  }

  // ---------------------------------------------------------------------------
  // The emit pass

  /**
   * The emit pass writes "/" + name for each non-empty slot, from the highest
   * slot down to the lowest, and nothing for the empty ones.
   */
  lemma {:induction false} EmitFromIsJoin(s: seq<seq<byte>>, lo: nat)
    requires lo <= |s|
    ensures EmitFrom(s, lo) == JoinPath(Reverse(NonEmpty(s[lo..])))
    decreases |s| - lo
  {
    if lo < |s| {
      EmitFromIsJoin(s, lo + 1);
      var keep := if |s[lo]| == 0 then [] else [s[lo]];
      var rest := NonEmpty(s[lo + 1..]);
      assert s[lo..][1..] == s[lo + 1..];
      assert NonEmpty(s[lo..]) == keep + rest;
      ReverseAppend(keep, rest);
      assert Reverse(keep) == keep;
      JoinAppend(Reverse(rest), keep);
      assert JoinPath(keep) == Piece(s[lo]);
    }
  }

  lemma {:induction false} EmitIsJoin(s: seq<seq<byte>>)
    ensures Emit(s) == JoinPath(Reverse(NonEmpty(s)))
  {
    EmitFromIsJoin(s, 0);
    assert s[0..] == s;
  }

  /** The emit pass writes nothing exactly when every slot is empty. */
  lemma {:induction false} EmitFromEmptyIff(s: seq<seq<byte>>, lo: nat)
    ensures EmitFrom(s, lo) == [] <==> forall k :: lo <= k < |s| ==> s[k] == []
    decreases |s| - lo
  {
    if lo < |s| {
      EmitFromEmptyIff(s, lo + 1);
      var rest := EmitFrom(s, lo + 1);
      assert EmitFrom(s, lo) == rest + Piece(s[lo]);
      assert |rest + Piece(s[lo])| == |rest| + |Piece(s[lo])|;
      assert Piece(s[lo]) == [] <==> s[lo] == [];
    }
  }

  /**
   * A resolution that records no component yields the empty string (not a
   * lone "/"), and only such a resolution does.
   */
  lemma {:induction false} ResolveEmptyIff(ns: Namespace, d: Dentry, m: Mount)
    ensures var slots := Collect(ns, Walk(d, m), 0, NoComponents());
      Resolve(ns, d, m) == [] <==> forall k :: 0 <= k < MAX_PATH_COMPONENTS ==> slots[k] == []
  {
    var slots := Collect(ns, Walk(d, m), 0, NoComponents());
    // names the slots as the postcondition does, so its quantifier has a match
    assert forall k :: 0 <= k < MAX_PATH_COMPONENTS ==> slots[k] == Collect(ns, Walk(d, m), 0, NoComponents())[k];
    EmitFromEmptyIff(slots, 0);
  }

  // ---------------------------------------------------------------------------
  // The collect pass, step by step

  /** The position at which step k starts, when the walk starts at step i in `w`. */
  function StateAt(ns: Namespace, w: Walk, i: nat, k: nat): Option<Walk>
    requires i <= k
    decreases k - i
  {
    if i == k then Some(w)
    else
      match StepOf(ns, w)
      case Stop => None
      case Cross(next) => StateAt(ns, next, i + 1, k)
      case Record(_, next) => StateAt(ns, next, i + 1, k)
  }

  /** What slot k holds after the pass: the name recorded at step k, if any. */
  function RecordedAt(ns: Namespace, w: Walk, i: nat, k: nat, initial: seq<byte>): seq<byte>
    requires i <= k
  {
    match StateAt(ns, w, i, k)
    case None => initial
    case Some(v) => if StepOf(ns, v).Record? then StepOf(ns, v).name else initial
  }

  /**
   * Step k of the collect pass writes slot k and no other: after the pass, slot
   * k holds the name recorded at step k, and otherwise its initial value.
   */
  lemma {:induction false} CollectSlot(ns: Namespace, w: Walk, i: nat, slots: seq<seq<byte>>, k: nat)
    requires i <= k < MAX_PATH_COMPONENTS && |slots| == MAX_PATH_COMPONENTS
    ensures Collect(ns, w, i, slots)[k] == RecordedAt(ns, w, i, k, slots[k])
    decreases k - i
  {
    match StepOf(ns, w)
    case Stop =>
    case Cross(next) =>
      if i < k {
        CollectSlot(ns, next, i + 1, slots, k);
      } else {
        CollectKeepsEarlier(ns, next, i + 1, slots, k);
      }
    case Record(name, next) =>
      if i < k {
        CollectSlot(ns, next, i + 1, slots[i := name], k);
      } else {
        CollectKeepsEarlier(ns, next, i + 1, slots[i := name], k);
      }
  }

  /** Hence a slot that no step records into stays empty. */
  lemma {:induction false} UnwrittenSlotsEmpty(ns: Namespace, d: Dentry, m: Mount, k: nat)
    requires k < MAX_PATH_COMPONENTS
    requires var v := StateAt(ns, Walk(d, m), 0, k); v.None? || !StepOf(ns, v.value).Record?
    ensures Collect(ns, Walk(d, m), 0, NoComponents())[k] == []
  {
    CollectSlot(ns, Walk(d, m), 0, NoComponents(), k);
  }

  /** An entry that is its own parent but not the mount root ends the walk. */
  lemma {:induction false} DetachedStops(ns: Namespace, w: Walk, i: nat, slots: seq<seq<byte>>)
    requires i <= MAX_PATH_COMPONENTS && |slots| == MAX_PATH_COMPONENTS
    requires w.dentry == ns.parent(w.dentry) && w.dentry != ns.mntRoot(w.mnt)
    ensures Collect(ns, w, i, slots) == slots
  {
  }

  /** The root of the top mount (its own parent mount) ends the walk. */
  lemma {:induction false} TopRootStops(ns: Namespace, w: Walk, i: nat, slots: seq<seq<byte>>)
    requires i <= MAX_PATH_COMPONENTS && |slots| == MAX_PATH_COMPONENTS
    requires w.dentry == ns.mntRoot(w.mnt) && w.mnt == ns.mntParent(w.mnt)
    ensures Collect(ns, w, i, slots) == slots
  {
  }

  /**
   * At the root of any other mount the walk continues at that mount's
   * mountpoint in its parent mount; the step is used up and records nothing.
   */
  lemma {:induction false} MountRootCrosses(ns: Namespace, w: Walk, i: nat, slots: seq<seq<byte>>)
    requires i < MAX_PATH_COMPONENTS && |slots| == MAX_PATH_COMPONENTS
    requires w.dentry == ns.mntRoot(w.mnt) && w.mnt != ns.mntParent(w.mnt)
    ensures Collect(ns, w, i, slots)
         == Collect(ns, Walk(ns.mntMountpoint(w.mnt), ns.mntParent(w.mnt)), i + 1, slots)
  {
  }

  // ---------------------------------------------------------------------------
  // Chains of ordinary entries

  /**
   * `ds` lists the entries met going up from `d`, one parent step at a time,
   * none of which is `root` or its own parent.
   */
  ghost predicate OrdinaryChain(ns: Namespace, d: Dentry, ds: seq<Dentry>, root: Dentry)
    decreases |ds|
  {
    ds == [] ||
    (ds[0] == d && d != root && d != ns.parent(d) && OrdinaryChain(ns, ns.parent(d), ds[1..], root))
  }

  /** The entry n parent steps above d. */
  function Ancestor(ns: Namespace, d: Dentry, n: nat): Dentry
    decreases n
  {
    if n == 0 then d else Ancestor(ns, ns.parent(d), n - 1)
  }

  function NamesOf(ns: Namespace, ds: seq<Dentry>): (r: seq<seq<byte>>)
    ensures |r| == |ds|
  {
    if ds == [] then [] else [ns.name(ds[0])] + NamesOf(ns, ds[1..])
  }

  ghost predicate NamedEntries(ns: Namespace, ds: seq<Dentry>)
  {
    forall k :: 0 <= k < |ds| ==> ns.name(ds[k]) != []
  }

  lemma {:induction false} NamesNonEmpty(ns: Namespace, ds: seq<Dentry>)
    requires NamedEntries(ns, ds)
    ensures forall k :: 0 <= k < |ds| ==> NamesOf(ns, ds)[k] != []
  {
    if ds != [] {
      NamesNonEmpty(ns, ds[1..]);
      assert forall k :: 1 <= k < |ds| ==> NamesOf(ns, ds)[k] == NamesOf(ns, ds[1..])[k - 1];
    }
  }

  lemma {:induction false} ChainPrefix(ns: Namespace, d: Dentry, ds: seq<Dentry>, root: Dentry, n: nat)
    requires OrdinaryChain(ns, d, ds, root) && n <= |ds|
    ensures OrdinaryChain(ns, d, ds[..n], root)
    decreases n
  {
    if n > 0 {
      assert ds[..n][1..] == ds[1..][..n - 1];
      ChainPrefix(ns, ns.parent(d), ds[1..], root, n - 1);
    }
  }

  /** Writing one name at slot i and then `rest` after it places `[name] + rest` at i. */
  lemma {:induction false} WriteThenPlace(slots: seq<seq<byte>>, i: nat, name: seq<byte>, rest: seq<seq<byte>>)
    requires i + 1 + |rest| <= |slots|
    ensures slots[i := name][..i + 1] + rest + slots[i := name][i + 1 + |rest|..]
         == slots[..i] + ([name] + rest) + slots[i + 1 + |rest|..]
  {
    assert slots[i := name][..i + 1] == slots[..i] + [name];
    assert slots[i := name][i + 1 + |rest|..] == slots[i + 1 + |rest|..];
    AppendAssoc(slots[..i], [name], rest);
  }

  /**
   * Along a chain of ordinary entries within one mount, each step records the
   * entry's name in the next slot and moves to the parent.
   */
  lemma {:induction false} CollectAlongChain(ns: Namespace, m: Mount, d: Dentry, ds: seq<Dentry>,
                                              i: nat, slots: seq<seq<byte>>)
    requires OrdinaryChain(ns, d, ds, ns.mntRoot(m))
    requires i + |ds| <= MAX_PATH_COMPONENTS && |slots| == MAX_PATH_COMPONENTS
    ensures Collect(ns, Walk(d, m), i, slots)
         == Collect(ns, Walk(Ancestor(ns, d, |ds|), m), i + |ds|,
                    slots[..i] + NamesOf(ns, ds) + slots[i + |ds|..])
    decreases |ds|
  {
    if ds == [] {
      assert slots[..i] + [] + slots[i..] == slots;
    } else {
      var name := ns.name(d);
      var slots' := slots[i := name];
      assert StepOf(ns, Walk(d, m)) == Record(name, Walk(ns.parent(d), m));
      CollectStep(ns, Walk(d, m), i, slots);
      CollectAlongChain(ns, m, ns.parent(d), ds[1..], i + 1, slots');
      assert NamesOf(ns, ds) == [name] + NamesOf(ns, ds[1..]);
      WriteThenPlace(slots, i, name, NamesOf(ns, ds[1..]));
    }
  }

  /**
   * Along a chain of ordinary entries up to the root of the top mount, the
   * names are placed from slot j on and the walk then ends.
   */
  lemma {:induction false} CollectToTopRoot(ns: Namespace, m: Mount, d: Dentry, ds: seq<Dentry>,
                         j: nat, slots: seq<seq<byte>>)
    requires ns.mntParent(m) == m
    requires OrdinaryChain(ns, d, ds, ns.mntRoot(m)) && Ancestor(ns, d, |ds|) == ns.mntRoot(m)
    requires j + |ds| <= MAX_PATH_COMPONENTS && |slots| == MAX_PATH_COMPONENTS
    ensures Collect(ns, Walk(d, m), j, slots) == slots[..j] + NamesOf(ns, ds) + slots[j + |ds|..]
  {
    var t := slots[..j] + NamesOf(ns, ds) + slots[j + |ds|..];
    CollectAlongChain(ns, m, d, ds, j, slots);
    if j + |ds| < MAX_PATH_COMPONENTS {
      TopRootStops(ns, Walk(ns.mntRoot(m), m), j + |ds|, t);
    }
  }

  /** The emitted path for recorded names followed by empty slots. */
  lemma {:induction false} EmitNamesThenEmpty(names: seq<seq<byte>>, empty: seq<seq<byte>>)
    requires forall k :: 0 <= k < |names| ==> names[k] != []
    requires forall k :: 0 <= k < |empty| ==> empty[k] == []
    ensures Emit(names + empty) == JoinPath(Reverse(names))
  {
    EmitIsJoin(names + empty);
    NonEmptyAppend(names, empty);
    NonEmptyOf(names);
    NonEmptyOf(empty);
    assert NonEmpty(names) + [] == names;
  }

  /**
   * Within the top mount, an entry whose ancestors up to the mount root are at
   * most 20 ordinary named entries resolves to the canonical path: their names
   * joined with "/" from the root down to the entry.
   */
  lemma {:induction false} ResolveWithinMount(ns: Namespace, m: Mount, d: Dentry, ds: seq<Dentry>)
    requires ns.mntParent(m) == m
    requires OrdinaryChain(ns, d, ds, ns.mntRoot(m)) && Ancestor(ns, d, |ds|) == ns.mntRoot(m)
    requires |ds| <= MAX_PATH_COMPONENTS && NamedEntries(ns, ds)
    ensures Resolve(ns, d, m) == JoinPath(Reverse(NamesOf(ns, ds)))
  {
    var z := NoComponents();
    CollectToTopRoot(ns, m, d, ds, 0, z);
    assert z[..0] + NamesOf(ns, ds) + z[|ds|..] == NamesOf(ns, ds) + z[|ds|..];
    NamesNonEmpty(ns, ds);
    EmitNamesThenEmpty(NamesOf(ns, ds), z[|ds|..]);
  }

  /**
   * An entry with at least 20 ordinary ancestors-or-self keeps only the 20
   * leaf-most: the result is their path, whatever lies above them.
   */
  lemma {:induction false} ResolveTruncated(ns: Namespace, m: Mount, d: Dentry, ds: seq<Dentry>)
    requires OrdinaryChain(ns, d, ds, ns.mntRoot(m)) && |ds| >= MAX_PATH_COMPONENTS
    requires NamedEntries(ns, ds[..MAX_PATH_COMPONENTS])
    ensures Resolve(ns, d, m) == JoinPath(Reverse(NamesOf(ns, ds[..MAX_PATH_COMPONENTS])))
  {
    var kept := ds[..MAX_PATH_COMPONENTS];
    ChainPrefix(ns, d, ds, ns.mntRoot(m), MAX_PATH_COMPONENTS);
    var z := NoComponents();
    CollectAlongChain(ns, m, d, kept, 0, z);
    assert z[..0] + NamesOf(ns, kept) + z[MAX_PATH_COMPONENTS..] == NamesOf(ns, kept) + [];
    NamesNonEmpty(ns, kept);
    EmitNamesThenEmpty(NamesOf(ns, kept), []);
  }

  /** The emitted path for names in a mount, the crossing slot, names in the parent mount. */
  lemma {:induction false} EmitAcrossMount(inner: seq<seq<byte>>, outer: seq<seq<byte>>, empty: seq<seq<byte>>)
    requires forall k :: 0 <= k < |inner| ==> inner[k] != []
    requires forall k :: 0 <= k < |outer| ==> outer[k] != []
    requires forall k :: 0 <= k < |empty| ==> empty[k] == []
    ensures Emit(inner + ([[]] + outer + empty)) == JoinPath(Reverse(outer)) + JoinPath(Reverse(inner))
  {
    var front := [[]] + outer;
    var tail := front + empty;
    var all := inner + tail;
    NonEmptyOf(inner);
    NonEmptyOf(outer);
    NonEmptyOf(empty);
    assert NonEmpty([[]]) == [];
    NonEmptyAppend([[]], outer);
    assert NonEmpty(front) == outer;
    NonEmptyAppend(front, empty);
    assert NonEmpty(tail) == outer;
    NonEmptyAppend(inner, tail);
    assert NonEmpty(all) == inner + outer;
    EmitIsJoin(all);
    ReverseAppend(inner, outer);
    JoinAppend(Reverse(outer), Reverse(inner));
  }

  /** The slots after the walk up through the inner mount, sliced around the crossing slot. */
  lemma {:induction false} InnerSlots(names: seq<seq<byte>>, z: seq<seq<byte>>, n2: nat)
    requires |names| < n2 <= |z| && z[|names|] == []
    ensures (names + z[|names|..])[..|names| + 1] == names + [[]]
    ensures (names + z[|names|..])[n2..] == z[n2..]
  {
  }

  /** The slots once the names of the top mount are placed after the crossing slot. */
  lemma {:induction false} OuterSlots(inner: seq<seq<byte>>, outer: seq<seq<byte>>, z: seq<seq<byte>>)
    requires |inner| + 1 + |outer| <= |z|
    requires forall k :: 0 <= k < |z| ==> z[k] == []
    ensures var s1 := inner + z[|inner|..]; var n2 := |inner| + 1 + |outer|;
      s1[..|inner| + 1] + outer + s1[n2..] == inner + ([[]] + outer + z[n2..])
  {
    var n2 := |inner| + 1 + |outer|;
    InnerSlots(inner, z, n2);
    AppendAssoc(inner, [[]], outer);
    AppendAssoc(inner, [[]] + outer, z[n2..]);
  }

  /** Walking up through the inner mount and across its root. */
  lemma {:induction false} CollectInnerMount(ns: Namespace, m: Mount, d: Dentry, ds: seq<Dentry>)
    requires m != ns.mntParent(m)
    requires OrdinaryChain(ns, d, ds, ns.mntRoot(m)) && Ancestor(ns, d, |ds|) == ns.mntRoot(m)
    requires |ds| < MAX_PATH_COMPONENTS
    ensures Collect(ns, Walk(d, m), 0, NoComponents())
         == Collect(ns, Walk(ns.mntMountpoint(m), ns.mntParent(m)), |ds| + 1,
                    NamesOf(ns, ds) + NoComponents()[|ds|..])
  {
    var z := NoComponents();
    var s1 := NamesOf(ns, ds) + z[|ds|..];
    CollectAlongChain(ns, m, d, ds, 0, z);
    assert z[..0] + NamesOf(ns, ds) + z[|ds|..] == s1;
    MountRootCrosses(ns, Walk(ns.mntRoot(m), m), |ds|, s1);
  }

  /** Then walking up through the top mount to its root. */
  lemma {:induction false} CollectOuterMount(ns: Namespace, p: Mount, mp: Dentry, es: seq<Dentry>,
                                             inner: seq<seq<byte>>)
    requires ns.mntParent(p) == p
    requires OrdinaryChain(ns, mp, es, ns.mntRoot(p)) && Ancestor(ns, mp, |es|) == ns.mntRoot(p)
    requires |inner| + 1 + |es| <= MAX_PATH_COMPONENTS
    ensures var z := NoComponents();
      Collect(ns, Walk(mp, p), |inner| + 1, inner + z[|inner|..])
      == inner + ([[]] + NamesOf(ns, es) + z[|inner| + 1 + |es|..])
  {
    var z := NoComponents();
    CollectToTopRoot(ns, p, mp, es, |inner| + 1, inner + z[|inner|..]);
    OuterSlots(inner, NamesOf(ns, es), z);
  }

  /** The slots after walking up through a mount and then through its parent. */
  lemma {:induction false} CollectAcrossMount(ns: Namespace, m: Mount, d: Dentry, ds: seq<Dentry>, es: seq<Dentry>)
    requires m != ns.mntParent(m)
    requires OrdinaryChain(ns, d, ds, ns.mntRoot(m)) && Ancestor(ns, d, |ds|) == ns.mntRoot(m)
    requires var p := ns.mntParent(m); var mp := ns.mntMountpoint(m);
      && ns.mntParent(p) == p
      && OrdinaryChain(ns, mp, es, ns.mntRoot(p)) && Ancestor(ns, mp, |es|) == ns.mntRoot(p)
    requires |ds| + 1 + |es| <= MAX_PATH_COMPONENTS
    ensures Collect(ns, Walk(d, m), 0, NoComponents())
         == NamesOf(ns, ds) + ([[]] + NamesOf(ns, es) + NoComponents()[|ds| + 1 + |es|..])
  {
    CollectInnerMount(ns, m, d, ds);
    CollectOuterMount(ns, ns.mntParent(m), ns.mntMountpoint(m), es, NamesOf(ns, ds));
  }

  /**
   * An entry in a mount that is mounted on an entry of the top mount resolves
   * to the mountpoint's path followed by the entry's path inside its mount,
   * provided both chains together with the crossing step fit in 20 steps.
   */
  lemma {:induction false} ResolveAcrossMount(ns: Namespace, m: Mount, d: Dentry, ds: seq<Dentry>, es: seq<Dentry>)
    requires m != ns.mntParent(m)
    requires OrdinaryChain(ns, d, ds, ns.mntRoot(m)) && Ancestor(ns, d, |ds|) == ns.mntRoot(m)
    requires var p := ns.mntParent(m); var mp := ns.mntMountpoint(m);
      && ns.mntParent(p) == p
      && OrdinaryChain(ns, mp, es, ns.mntRoot(p)) && Ancestor(ns, mp, |es|) == ns.mntRoot(p)
    requires |ds| + 1 + |es| <= MAX_PATH_COMPONENTS
    requires NamedEntries(ns, ds) && NamedEntries(ns, es)
    ensures Resolve(ns, d, m) == JoinPath(Reverse(NamesOf(ns, es))) + JoinPath(Reverse(NamesOf(ns, ds)))
  {
    CollectAcrossMount(ns, m, d, ds, es);
    NamesNonEmpty(ns, ds);
    NamesNonEmpty(ns, es);
    EmitAcrossMount(NamesOf(ns, ds), NamesOf(ns, es), NoComponents()[|ds| + 1 + |es|..]);
  }

  // ---------------------------------------------------------------------------
  // Worked examples

  /** The chain from entry 4 up to entry 0 in the nested-file example. */
  lemma {:induction false} NestedChain(ns: Namespace)
    requires ns.parent(4) == 3 && ns.parent(3) == 2 && ns.parent(2) == 1 && ns.parent(1) == 0
    ensures OrdinaryChain(ns, 4, [4, 3, 2, 1], 0) && Ancestor(ns, 4, 4) == 0
    ensures NamesOf(ns, [4, 3, 2, 1]) == [ns.name(4), ns.name(3), ns.name(2), ns.name(1)]
  {
    assert [4, 3, 2, 1][1..] == [3, 2, 1] && [3, 2, 1][1..] == [2, 1] && [2, 1][1..] == [1];
    assert OrdinaryChain(ns, 1, [1], 0);
    assert OrdinaryChain(ns, 2, [2, 1], 0);
    assert OrdinaryChain(ns, 3, [3, 2, 1], 0);
    assert Ancestor(ns, 1, 1) == 0;
    assert Ancestor(ns, 2, 2) == 0;
    assert Ancestor(ns, 3, 3) == 0;
    assert NamesOf(ns, [1]) == [ns.name(1)];
    assert NamesOf(ns, [2, 1]) == [ns.name(2), ns.name(1)];
    assert NamesOf(ns, [3, 2, 1]) == [ns.name(3), ns.name(2), ns.name(1)];
  }

  /** Four names listed leaf first, joined root first. */
  lemma {:induction false} JoinFourReversed(a: seq<byte>, b: seq<byte>, c: seq<byte>, d: seq<byte>)
    ensures JoinPath(Reverse([d, c, b, a])) == SLASH + a + SLASH + b + SLASH + c + SLASH + d
  {
    assert Reverse([d, c, b, a]) == [a, b, c, d] by {
      assert [d, c, b, a][1..] == [c, b, a] && [c, b, a][1..] == [b, a] && [b, a][1..] == [a];
      assert Reverse([a]) == [a];
      assert Reverse([b, a]) == [a, b];
      assert Reverse([c, b, a]) == [a, b, c];
    }
    assert [a, b, c, d][1..] == [b, c, d] && [b, c, d][1..] == [c, d] && [c, d][1..] == [d];
    assert JoinPath([d]) == SLASH + d;
    assert JoinPath([c, d]) == SLASH + c + SLASH + d;
    assert JoinPath([b, c, d]) == SLASH + b + SLASH + c + SLASH + d;
  }

  /**
   * "/a/b/c/file": entry 4 of a top mount 0 rooted at entry 0, where entry 1
   * is named `a` and sits below the root, 2 is `b` in 1, 3 is `c` in 2 and 4
   * is `file` in 3, resolves to "/" a "/" b "/" c "/" file.
   */
  lemma {:induction false} ExampleNestedFile(ns: Namespace, a: seq<byte>, b: seq<byte>,
                                             c: seq<byte>, file: seq<byte>)
    requires ns.mntRoot(0) == 0 && ns.mntParent(0) == 0
    requires ns.parent(4) == 3 && ns.parent(3) == 2 && ns.parent(2) == 1 && ns.parent(1) == 0
    requires ns.name(4) == file && ns.name(3) == c && ns.name(2) == b && ns.name(1) == a
    requires a != [] && b != [] && c != [] && file != []
    ensures Resolve(ns, 4, 0) == SLASH + a + SLASH + b + SLASH + c + SLASH + file
  {
    NestedChain(ns);
    ResolveWithinMount(ns, 0, 4, [4, 3, 2, 1]);
    JoinFourReversed(a, b, c, file);
  }

  /**
   * "/mnt/data": entry 11, named `data` at the root 10 of mount 1, which is
   * mounted on entry 5, named `mnt` at the root 0 of the top mount 0, resolves
   * to "/" mnt "/" data.
   */
  lemma {:induction false} ExampleMountedEntry(ns: Namespace, mnt: seq<byte>, data: seq<byte>)
    requires ns.mntRoot(0) == 0 && ns.mntParent(0) == 0
    requires ns.mntRoot(1) == 10 && ns.mntParent(1) == 0 && ns.mntMountpoint(1) == 5
    requires ns.parent(11) == 10 && ns.parent(5) == 0
    requires ns.name(11) == data && ns.name(5) == mnt && data != [] && mnt != []
    ensures Resolve(ns, 11, 1) == SLASH + mnt + SLASH + data
  {
    assert OrdinaryChain(ns, 11, [11], 10);
    assert OrdinaryChain(ns, 5, [5], 0);
    assert NamesOf(ns, [11]) == [data];
    assert NamesOf(ns, [5]) == [mnt];
    ResolveAcrossMount(ns, 1, 11, [11], [5]);
    assert JoinPath(Reverse([mnt])) == SLASH + mnt;
    assert JoinPath(Reverse([data])) == SLASH + data;
  }
}
