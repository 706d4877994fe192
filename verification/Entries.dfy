/** Which entry each request gets and what stands in it, whether or not the buffers fit their windows. */
module Entries {
  import opened Words
  import opened Translation
  import opened Layout

  /** What request `p` writes in its entry. */
  function Written(ds: seq<KernelDesc>, rs: seq<Request<Buffer>>, p: nat): Mapping
    requires p < |rs| && rs[p].kernel < |ds|
  {
    MemoryMapping(StartOf(ds, rs, p), rs[p].item.size, rs[p].item.phys, rs[p].item.bank)
  }

  lemma MapBufferEntry(w: World, ds: seq<KernelDesc>, j: nat, b: Buffer, i: nat)
    requires Ready(w, ds, j) && i < |ds| && Distinct(ds)
    ensures TableOf(MapBuffer(w, ds, j, b).hw, ds[i].unit) ==
            var t := TableOf(w.hw, ds[i].unit);
            if i != j then t
            else t[w.entries[ds[i].unit] := MemoryMapping(w.pool[ds[i].id], b.size, b.phys, b.bank)]
  {
    hide AlignUp;
    hide MemoryMapping;
    if i != j {
      DistinctKernels(ds, i, j);
    }
  }

  lemma OneMore(w: World, ds: seq<KernelDesc>, rs: seq<Request<Buffer>>, i: nat)
    requires Begun(w, ds, rs) && i < |ds| && Mappable(ds[i].arch) && rs != []
    ensures Begun(w, ds, rs[..|rs| - 1])
    ensures var n := |rs| - 1;
            var t, t' := TableAfter(w, ds, rs[..n], i), TableAfter(w, ds, rs, i);
            t' == if rs[n].kernel == i then t[EntryOf(rs, n) := Written(ds, rs, n)] else t
  {
    hide MapBuffer;
    hide Used;
    hide Mapped;
    hide Distinct;
    hide MemoryMapping;
    var n := |rs| - 1;
    assert Begun(w, ds, rs[..n]);
    Cursor(w, ds, rs[..n], rs[n].kernel);
    MapBufferEntry(BuffersPass(w, ds, rs[..n]), ds, rs[n].kernel, rs[n].item, i);
  }

  lemma SameRequest(ds: seq<KernelDesc>, rs: seq<Request<Buffer>>, n: nat, p: nat)
    requires p < n <= |rs| && rs[p].kernel < |ds|
    ensures EntryOf(rs[..n], p) == EntryOf(rs, p) && Written(ds, rs[..n], p) == Written(ds, rs, p)
    ensures StartOf(ds, rs[..n], p) == StartOf(ds, rs, p)
  {
    assert rs[..n][..p] == rs[..p];
  }

  /** Whether or not it wraps, what a request wrote is never overwritten by another. */
  lemma {:induction false} EntryStays(w: World, ds: seq<KernelDesc>, rs: seq<Request<Buffer>>, p: nat)
    requires Begun(w, ds, rs) && p < |rs|
    ensures var t, e := TableAfter(w, ds, rs, rs[p].kernel), EntryOf(rs, p);
            e in t && t[e] == Written(ds, rs, p)
    decreases |rs|
  {
    hide BuffersPass;
    hide MapBuffer;
    hide Mapped;
    hide Written;
    hide Used;
    var n := |rs| - 1;
    OneMore(w, ds, rs, rs[p].kernel);
    if p < n {
      SameRequest(ds, rs, n, p);
      EntryStays(w, ds, rs[..n], p);
      UsedGrows(rs, rs[p].kernel, p, n);
    }
  }

  // ----- entries and requests

  /** Entry `e` is one that the requests for kernel `i` are given. */
  predicate Assigned(rs: seq<Request<Buffer>>, i: nat, e: nat) {
    TLB_ENTRY_START <= e < TLB_ENTRY_START + Mapped(rs, i)
  }

  lemma {:induction false} RequestOf(rs: seq<Request<Buffer>>, i: nat, e: nat) returns (p: nat)
    requires Assigned(rs, i, e)
    ensures p < |rs| && rs[p].kernel == i && EntryOf(rs, p) == e
  {
    var n := |rs| - 1;
    if Assigned(rs[..n], i, e) {
      p := RequestOf(rs[..n], i, e);
      assert rs[..n][..p] == rs[..p];
    } else {
      p := n;
    }
  }

  lemma EntryAssigned(rs: seq<Request<Buffer>>, p: nat)
    requires p < |rs|
    ensures Assigned(rs, rs[p].kernel, EntryOf(rs, p))
  {
    assert rs[..|rs|] == rs;
    UsedGrows(rs, rs[p].kernel, p, |rs|);
  }

  /** Two requests for one kernel have different entries. */
  lemma EntriesDiffer(rs: seq<Request<Buffer>>, p: nat, q: nat)
    requires p < q < |rs| && rs[p].kernel == rs[q].kernel
    ensures EntryOf(rs, p) != EntryOf(rs, q)
  {
    UsedGrows(rs, rs[p].kernel, p, q);
  }

  // ----- what the passes leave alone

  /** Entry `e` of tile `u` is the same in both. */
  predicate SameEntry(hw: map<Word, Table>, hw': map<Word, Table>, u: Word, e: nat) {
    && (e in TableOf(hw, u) <==> e in TableOf(hw', u))
    && (e in TableOf(hw, u) ==> TableOf(hw, u)[e] == TableOf(hw', u)[e])
  }

  lemma {:induction false} KernelsTouch(w: World, ds: seq<KernelDesc>, n: nat, u: Word, e: nat)
    requires n <= |ds| == |w.kernels| && e != TLB_ENTRY_KERNEL
    ensures SameEntry(w.hw, KernelsPass(w, ds, n).hw, u, e)
  {
    if n > 0 {
      KernelsTouch(w, ds, n - 1, u, e);
    }
  }

  lemma {:induction false} BuffersTouch(w: World, ds: seq<KernelDesc>, rs: seq<Request<Buffer>>, u: Word, e: nat)
    requires Begun(w, ds, rs)
    requires forall i :: 0 <= i < |ds| && ds[i].unit == u ==> !Assigned(rs, i, e)
    ensures SameEntry(w.hw, BuffersPass(w, ds, rs).hw, u, e)
  {
    hide AlignUp;
    hide MemoryMapping;
    if rs != [] {
      var n := |rs| - 1;
      assert Begun(w, ds, rs[..n]);
      BuffersTouch(w, ds, rs[..n], u, e);
      Cursor(w, ds, rs[..n], rs[n].kernel);
    }
  }

  lemma {:induction false} OpenTouch(w: World, ds: seq<KernelDesc>, n: nat, u: Word, e: nat)
    requires n <= |ds| == |w.kernels| && e != TLB_ENTRY_EVENTS
    ensures SameEntry(w.hw, OpenAll(w, ds, n).hw, u, e)
  {
    if n > 0 {
      OpenTouch(w, ds, n - 1, u, e);
    }
  }
}
