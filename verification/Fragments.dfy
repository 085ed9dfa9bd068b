/** Chain fragments of the full sync: joining, filtering, sorting and merging runs of blocks. */
module Fragments {
  import opened Basics

  datatype Header = Header(parent: Hash, number: nat)

  /** What a peer sent about a block; parts that were not requested are missing. */
  datatype Data = Data(hash: Hash, header: Option<Header>, body: Option<nat>, justification: Option<nat>)

  type Fragment = seq<Data>

  // ---------------------------------------------------------------- chains

  predicate Headed(f: Fragment) {
    forall i {:trigger f[i]} :: 0 <= i < |f| ==> f[i].header.Some?
  }

  predicate IsParent(a: Data, b: Data)
    requires a.header.Some? && b.header.Some?
  {
    a.header.value.number + 1 == b.header.value.number && a.hash == b.header.value.parent
  }

  /** Each block is the parent of the next. */
  predicate Linked(f: Fragment) {
    Headed(f) && forall i {:trigger f[i]} :: 0 < i < |f| ==> IsParent(f[i - 1], f[i])
  }

  predicate Chain(f: Fragment) {
    f != [] && Linked(f)
  }

  ghost predicate Chains(fs: seq<Fragment>) {
    forall i {:trigger fs[i]} :: 0 <= i < |fs| ==> Chain(fs[i])
  }

  function First(f: Fragment): Data
    requires f != []
  {
    f[0]
  }

  function Last(f: Fragment): Data
    requires f != []
  {
    f[|f| - 1]
  }

  function Number(d: Data): nat
    requires d.header.Some?
  {
    d.header.value.number
  }

  lemma {:induction false} ConcatChain(a: Fragment, b: Fragment)
    requires Chain(a) && Chain(b) && IsParent(Last(a), First(b))
    ensures Chain(a + b)
  {
    var c := a + b;
    forall i {:trigger c[i]} | 0 < i < |c| ensures IsParent(c[i - 1], c[i]) {
      if i < |a| { assert c[i] == a[i] && c[i - 1] == a[i - 1]; } else if i > |a| { assert c[i] == b[i - |a|]; }
    }
  }

  lemma {:induction false} NumbersRise(f: Fragment, i: nat)
    requires Linked(f) && i < |f|
    ensures Number(f[i]) == Number(f[0]) + i
  {
    if i > 0 {
      NumbersRise(f, i - 1);
      assert IsParent(f[i - 1], f[i]);
    }
  }

  // ---------------------------------------------------------------- filtering

  /** The blocks above a number. */
  function Above(f: Fragment, n: nat): Fragment
    requires Headed(f)
  {
    if f == [] then []
    else
      assert Headed(f[1..]) by { assert forall i :: 0 <= i < |f[1..]| ==> f[1..][i] == f[i + 1]; }
      (if Number(f[0]) > n then [f[0]] else []) + Above(f[1..], n)
  }

  method Filter(f: Fragment, n: nat) returns (r: Fragment)
    requires Headed(f)
    ensures r == Above(f, n)
  {
    r := [];
    var i := 0;
    assert f[0..] == f;
    while i < |f|
      invariant 0 <= i <= |f| && Headed(f[i..]) && r + Above(f[i..], n) == Above(f, n)
    {
      AboveFrom(f, i, n);
      if Number(f[i]) > n { r := r + [f[i]]; }
      i := i + 1;
    }
  }

  lemma {:induction false} AboveFrom(f: Fragment, i: nat, n: nat)
    requires i < |f| && Headed(f) && Headed(f[i..])
    ensures Headed(f[i + 1..]) && Above(f[i..], n) == (if Number(f[i]) > n then [f[i]] else []) + Above(f[i + 1..], n)
  {
    assert f[i..][1..] == f[i + 1..];
    var rest := f[i + 1..];
    forall k {:trigger rest[k]} | 0 <= k < |rest| ensures rest[k].header.Some? { assert rest[k] == f[i + 1 + k]; }
  }

  /** Of a chain, filtering keeps the end. */
  lemma {:induction false} AboveIsSuffix(f: Fragment, n: nat) returns (k: nat)
    requires Linked(f)
    ensures k <= |f| && Above(f, n) == f[k..] && Linked(f[k..])
    ensures forall i {:trigger f[i]} :: 0 <= i < |f| ==> (i < k <==> Number(f[i]) <= n)
    decreases f
  {
    if f == [] {
      k := 0;
    } else {
      TailLinked(f);
      var j := AboveIsSuffix(f[1..], n);
      if Number(f[0]) > n {
        k := 0;
        forall i {:trigger f[i]} | 0 <= i < |f| ensures Number(f[i]) > n { NumbersRise(f, i); }
        assert forall i :: 0 <= i < |f[1..]| ==> f[1..][i] == f[i + 1];
        assert f == [f[0]] + f[1..];
      } else {
        k := j + 1;
        assert f[1..][j..] == f[k..];
        forall i {:trigger f[i]} | 0 <= i < |f| ensures i < k <==> Number(f[i]) <= n {
          if i > 0 { assert f[1..][i - 1] == f[i]; }
        }
      }
    }
  }

  lemma {:induction false} TailLinked(f: Fragment)
    requires Linked(f) && f != []
    ensures Linked(f[1..])
  {
    var t := f[1..];
    forall i {:trigger t[i]} | 0 <= i < |t| ensures t[i].header.Some? && (i > 0 ==> IsParent(t[i - 1], t[i])) {
      assert t[i] == f[i + 1];
    }
  }

  /** A filtered chain is a chain again, or empty; what is missing is at or below the number. */
  lemma {:induction false} AboveChain(f: Fragment, n: nat)
    requires Chain(f)
    ensures Above(f, n) != [] ==> Chain(Above(f, n))
    ensures forall b :: b in f ==> b in Above(f, n) || (b.header.Some? && Number(b) <= n)
    ensures forall b :: b in Above(f, n) ==> b in f && b.header.Some? && Number(b) > n
  {
    var k := AboveIsSuffix(f, n);
    forall b | b in f ensures b in Above(f, n) || (b.header.Some? && Number(b) <= n) {
      var i :| 0 <= i < |f| && f[i] == b;
      if i >= k { assert f[k..][i - k] == b; }
    }
    forall b | b in Above(f, n) ensures b in f && b.header.Some? && Number(b) > n {
      var i :| 0 <= i < |f[k..]| && f[k..][i] == b;
      assert f[i + k] == b;
    }
  }

  // ---------------------------------------------------------------- sorting

  /** What fragments are sorted by: the number of their first block. */
  function Key(f: Fragment): nat {
    if f != [] && f[0].header.Some? then f[0].header.value.number else 0
  }

  ghost predicate SortedByFirst(fs: seq<Fragment>) {
    forall i {:trigger fs[i]} :: 0 < i < |fs| ==> Key(fs[i - 1]) <= Key(fs[i])
  }

  /** Fragments as they are before merging: linked, but one may be empty. */
  ghost predicate Pieces(fs: seq<Fragment>) {
    forall i {:trigger fs[i]} :: 0 <= i < |fs| ==> Linked(fs[i])
  }

  lemma {:induction false} PiecesAreChains(fs: seq<Fragment>)
    requires Pieces(fs)
    ensures Chains(fs) <==> [] !in fs
  {
  }

  /** Some ordering by the number of the first block; equal ones in any order. */
  method SortFragments(fs: seq<Fragment>) returns (sorted: seq<Fragment>)
    requires Pieces(fs)
    ensures multiset(sorted) == multiset(fs) && Pieces(sorted)
    ensures Chains(fs) ==> SortedByFirst(sorted) && Chains(sorted)
  {
    sorted := [];
    var i := 0;
    while i < |fs|
      invariant 0 <= i <= |fs| && multiset(sorted) == multiset(fs[..i]) && SortedByFirst(sorted) && Pieces(sorted)
    {
      assert fs[..i + 1] == fs[..i] + [fs[i]];
      sorted := InsertFragment(sorted, fs[i]);
      i := i + 1;
    }
    assert fs[..i] == fs;
    assert forall f :: f in sorted <==> f in multiset(sorted);
    assert forall f :: f in fs <==> f in multiset(fs);
    PiecesAreChains(fs);
    PiecesAreChains(sorted);
  }

  method InsertFragment(fs: seq<Fragment>, f: Fragment) returns (r: seq<Fragment>)
    requires Pieces(fs) && SortedByFirst(fs) && Linked(f)
    ensures multiset(r) == multiset(fs) + multiset{f} && SortedByFirst(r) && Pieces(r)
  {
    var i := 0;
    while i < |fs| && Key(fs[i]) <= Key(f)
      invariant 0 <= i <= |fs| && (i > 0 ==> Key(fs[i - 1]) <= Key(f))
    {
      i := i + 1;
    }
    r := fs[..i] + [f] + fs[i..];
    assert multiset(r) == multiset(fs) + multiset{f} by { assert fs == fs[..i] + fs[i..]; }
    InsertSorted(fs, i, f);
  }

  lemma {:induction false} InsertSorted(fs: seq<Fragment>, i: nat, f: Fragment)
    requires Pieces(fs) && SortedByFirst(fs) && Linked(f) && i <= |fs|
    requires (i > 0 ==> Key(fs[i - 1]) <= Key(f)) && (i < |fs| ==> Key(f) <= Key(fs[i]))
    ensures var r := fs[..i] + [f] + fs[i..]; SortedByFirst(r) && Pieces(r)
  {
    var r := fs[..i] + [f] + fs[i..];
    forall k {:trigger r[k]} | 0 <= k < |r| ensures Linked(r[k]) && (k > 0 ==> Key(r[k - 1]) <= Key(r[k])) {
      assert k < i ==> r[k] == fs[k];
      assert k > i ==> r[k] == fs[k - 1];
      assert r[i] == f;
    }
  }

  // ---------------------------------------------------------------- merging

  function Flatten(fs: seq<Fragment>): seq<Data> {
    if fs == [] then [] else fs[0] + Flatten(fs[1..])
  }

  lemma {:induction false} FlattenConcat(a: seq<Fragment>, b: seq<Fragment>)
    ensures Flatten(a + b) == Flatten(a) + Flatten(b)
    decreases a
  {
    if a == [] {
      assert a + b == b;
    } else {
      assert (a + b)[1..] == a[1..] + b;
      FlattenConcat(a[1..], b);
    }
  }

  /** Some fragment holds the block. */
  ghost predicate Holds(fs: seq<Fragment>, b: Data) {
    exists f :: f in fs && b in f
  }

  lemma {:induction false} HoldsIsFlatten(fs: seq<Fragment>, b: Data)
    ensures Holds(fs, b) <==> b in Flatten(fs)
    decreases fs
  {
    if fs != [] {
      HoldsIsFlatten(fs[1..], b);
      assert fs == [fs[0]] + fs[1..];
    }
  }

  predicate Joins(a: Fragment, b: Fragment) {
    Chain(a) && Chain(b) && IsParent(Last(a), First(b))
  }

  /** No two neighbours could still be joined. */
  ghost predicate Maximal(fs: seq<Fragment>) {
    forall i {:trigger fs[i]} :: 0 < i < |fs| ==> !Joins(fs[i - 1], fs[i])
  }

  /** A block or header that is not there was looked at; or an import failed. */
  datatype SyncError = NilBlock | ImportFailed

  /**
   Joins neighbours that follow each other: the blocks and their order stay, the pieces are as long as can
   be. An empty fragment among several is fatal; on its own it is left for later.
   */
  method MergeFragments(fs: seq<Fragment>) returns (r: Result<seq<Fragment>, SyncError>)
    requires Pieces(fs)
    ensures (r.Err? <==> |fs| > 1 && [] in fs) && (r.Err? ==> r.error.NilBlock?)
    ensures r.Ok? ==>
      Pieces(r.value) && Flatten(r.value) == Flatten(fs) && Maximal(r.value) && ([] in r.value <==> [] in fs)
  {
    if |fs| == 0 { return Ok([]); }
    var merged := [fs[0]];
    var i := 1;
    assert fs[..1] == [fs[0]];
    while i < |fs|
      invariant 1 <= i <= |fs| && merged != [] && Pieces(merged) && Maximal(merged)
      invariant Flatten(merged) == Flatten(fs[..i])
      invariant if i == 1 then merged == [fs[0]] else Chains(merged) && [] !in fs[..i]
    {
      assert fs[..i + 1] == fs[..i] + [fs[i]];
      FlattenConcat(fs[..i], [fs[i]]);
      PiecesAreChains(merged);
      if merged[|merged| - 1] == [] || fs[i] == [] { return Err(NilBlock); }
      merged := MergeOne(merged, fs[i]);
      i := i + 1;
    }
    assert fs[..i] == fs;
    PiecesAreChains(merged);
    return Ok(merged);
  }

  method MergeOne(merged: seq<Fragment>, f: Fragment) returns (r: seq<Fragment>)
    requires merged != [] && Chains(merged) && Maximal(merged) && Chain(f)
    ensures r != [] && Chains(r) && Maximal(r) && Flatten(r) == Flatten(merged) + f
  {
    var n := |merged| - 1;
    var last := merged[n];
    if IsParent(Last(last), First(f)) {
      MergedLast(merged, f);
      r := merged[n := last + f];
    } else {
      MergedNew(merged, f);
      r := merged + [f];
    }
  }

  /** A fragment of its own. */
  lemma {:induction false} MergedNew(merged: seq<Fragment>, f: Fragment)
    requires merged != [] && Chains(merged) && Maximal(merged) && Chain(f) && !Joins(merged[|merged| - 1], f)
    ensures Chains(merged + [f]) && Maximal(merged + [f]) && Flatten(merged + [f]) == Flatten(merged) + f
  {
    FlattenConcat(merged, [f]);
    assert Flatten([f]) == f;
  }

  /** The last fragment, continued. */
  lemma {:induction false} MergedLast(merged: seq<Fragment>, f: Fragment)
    requires merged != [] && Chains(merged) && Maximal(merged) && Joins(merged[|merged| - 1], f)
    ensures var n := |merged| - 1; var r := merged[n := merged[n] + f];
      Chains(r) && Maximal(r) && Flatten(r) == Flatten(merged) + f
  {
    var n := |merged| - 1;
    ConcatChain(merged[n], f);
    FlattenLast(merged, f);
    if n > 0 { JoinsContinued(merged[n - 1], merged[n], f); }
  }

  lemma {:induction false} FlattenLast(merged: seq<Fragment>, f: Fragment)
    requires merged != []
    ensures var n := |merged| - 1; Flatten(merged[n := merged[n] + f]) == Flatten(merged) + f
  {
    var n := |merged| - 1;
    var last := merged[n];
    assert merged == merged[..n] + [last] && merged[n := last + f] == merged[..n] + [last + f];
    FlattenConcat(merged[..n], [last]);
    FlattenConcat(merged[..n], [last + f]);
  }

  /** Whether a fragment is continued by another depends on the other's first block only. */
  lemma {:induction false} JoinsContinued(a: Fragment, b: Fragment, f: Fragment)
    requires Chain(b) && Chain(b + f)
    ensures Joins(a, b + f) <==> Joins(a, b)
  {
    assert First(b + f) == First(b);
  }

  // ---------------------------------------------------------------- which blocks fragments hold

  lemma {:induction false} HoldsAppend(fs: seq<Fragment>, f: Fragment)
    ensures forall b :: Holds(fs + [f], b) <==> Holds(fs, b) || b in f
  {
    forall b ensures Holds(fs + [f], b) <==> Holds(fs, b) || b in f {
      if Holds(fs, b) { var g :| g in fs && b in g; assert g in fs + [f]; }
      if b in f { assert f in fs + [f]; }
    }
  }

  lemma {:induction false} HoldsConcat(fs: seq<Fragment>, gs: seq<Fragment>)
    ensures forall b :: Holds(fs + gs, b) <==> Holds(fs, b) || Holds(gs, b)
  {
    forall b ensures Holds(fs + gs, b) <==> Holds(fs, b) || Holds(gs, b) {
      assert forall f :: f in fs + gs <==> f in fs || f in gs;
    }
  }

  lemma {:induction false} HoldsSingle(d: Data)
    ensures forall b :: Holds([[d]], b) <==> b == d
  {
    assert [d] in [[d]];
    assert forall f :: f in [[d]] ==> f == [d];
  }

  lemma {:induction false} HoldsWithout(fs: seq<Fragment>, i: nat)
    requires i < |fs|
    ensures forall b :: Holds(fs, b) ==> b in fs[i] || Holds(fs[..i] + fs[i + 1..], b)
  {
    forall b | Holds(fs, b) ensures b in fs[i] || Holds(fs[..i] + fs[i + 1..], b) {
      var f :| f in fs && b in f;
      assert fs == fs[..i] + [fs[i]] + fs[i + 1..];
      assert f == fs[i] || f in fs[..i] + fs[i + 1..];
    }
  }

  lemma {:induction false} FlattenAppend(fs: seq<Fragment>, f: Fragment)
    ensures Flatten(fs + [f]) == Flatten(fs) + f
  {
    FlattenConcat(fs, [f]);
    assert [f][1..] == [] && Flatten([f]) == f + [];
  }

  function Hashes(data: seq<Data>): set<Hash> {
    set d | d in data :: d.hash
  }

  lemma {:induction false} HashesNext(blocks: seq<Data>)
    requires blocks != []
    ensures var n := |blocks| - 1; Hashes(blocks) == Hashes(blocks[..n]) + {blocks[n].hash}
  {
    assert blocks == blocks[..|blocks| - 1] + [blocks[|blocks| - 1]];
  }
}
