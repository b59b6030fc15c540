/** Counting free blobs, and hash chains threaded through numbered entries. */
module DirBits {
  import opened Basics
  import opened DirLayout

  /** How many blobs from lo to hi are free. */
  function Zeros(bits: seq<bool>, lo: nat, hi: nat): nat
    requires lo <= hi <= |bits|
    decreases hi - lo
  {
    if lo == hi then 0 else (if bits[lo] then 0 else 1) + Zeros(bits, lo + 1, hi)
  }

  lemma {:induction false} ZerosSame(a: seq<bool>, b: seq<bool>, lo: nat, hi: nat)
    requires lo <= hi <= |a| == |b| && forall k :: lo <= k < hi ==> a[k] == b[k]
    ensures Zeros(a, lo, hi) == Zeros(b, lo, hi)
    decreases hi - lo
  {
    if lo < hi {
      ZerosSame(a, b, lo + 1, hi);
    }
  }

  lemma {:induction false} ZerosSplit(a: seq<bool>, lo: nat, mid: nat, hi: nat)
    requires lo <= mid <= hi <= |a|
    ensures Zeros(a, lo, hi) == Zeros(a, lo, mid) + Zeros(a, mid, hi)
    decreases mid - lo
  {
    if lo < mid {
      ZerosSplit(a, lo + 1, mid, hi);
    }
  }

  lemma {:induction false} ZerosAll(a: seq<bool>, lo: nat, hi: nat, bit: bool)
    requires lo <= hi <= |a| && forall k :: lo <= k < hi ==> a[k] == bit
    ensures Zeros(a, lo, hi) == if bit then 0 else hi - lo
    decreases hi - lo
  {
    if lo < hi {
      ZerosAll(a, lo + 1, hi, bit);
    }
  }

  /** Taking n free blobs leaves n fewer. */
  lemma ZerosTaken(a: seq<bool>, b: seq<bool>, lo: nat, hi: nat, at: nat, n: nat)
    requires |a| == |b| && lo <= at && at + n <= hi <= |a|
    requires forall k :: at <= k < at + n ==> !a[k] && b[k]
    requires forall k :: lo <= k < hi && !(at <= k < at + n) ==> a[k] == b[k]
    ensures Zeros(b, lo, hi) == Zeros(a, lo, hi) - n
  {
    ZerosSplit(a, lo, at, hi);
    ZerosSplit(a, at, at + n, hi);
    ZerosSplit(b, lo, at, hi);
    ZerosSplit(b, at, at + n, hi);
    ZerosSame(a, b, lo, at);
    ZerosSame(a, b, at + n, hi);
    ZerosAll(a, at, at + n, false);
    ZerosAll(b, at, at + n, true);
  }

  // ---------------------------------------------------------------- hash chains

  /** A directory entry in memory: its item, and the number of the next on its chain, or 0. */
  datatype Entry = Entry(item: Item, next: nat)

  /** Following next from b visits the chain and ends. */
  predicate Leads(at: map<nat, Entry>, b: nat, chain: seq<Placed>)
    decreases |chain|
  {
    if chain == [] then b == 0
    else b == chain[0].blob && b != 0 && b in at && at[b].item == chain[0].item && Leads(at, at[b].next, chain[1..])
  }

  /** The placed entries whose names hash to h, newest first. */
  function ChainOf(ps: seq<Placed>, hash: string -> nat, h: nat): seq<Placed>
  {
    if ps == [] then [] else
      var rest, p := ChainOf(ps[..|ps| - 1], hash, h), ps[|ps| - 1];
      if hash(p.item.name) == h then [p] + rest else rest
  }

  lemma {:induction false} LeadsFrame(at: map<nat, Entry>, b: nat, chain: seq<Placed>, k: nat, e: Entry)
    requires Leads(at, b, chain) && forall i :: 0 <= i < |chain| ==> chain[i].blob != k
    ensures Leads(at[k := e], b, chain)
    decreases |chain|
  {
    if chain != [] {
      LeadsFrame(at, at[b].next, chain[1..], k, e);
    }
  }

  lemma {:induction false} ChainFrom(ps: seq<Placed>, hash: string -> nat, h: nat)
    ensures forall i :: 0 <= i < |ChainOf(ps, hash, h)| ==> ChainOf(ps, hash, h)[i] in ps
    decreases |ps|
  {
    if ps != [] {
      ChainFrom(ps[..|ps| - 1], hash, h);
      assert forall p :: p in ps[..|ps| - 1] ==> p in ps;
    }
  }

  /** The item listed last under a name. */
  function LastNamed(items: seq<Item>, name: string): (r: Option<Item>)
    ensures r.None? <==> forall i :: 0 <= i < |items| ==> items[i].name != name
    ensures r.Some? ==> r.value in items && r.value.name == name
  {
    if items == [] then None
    else if items[|items| - 1].name == name then Some(items[|items| - 1])
    else LastNamed(items[..|items| - 1], name)
  }

  /** Where the last item of a name is. */
  function LastAt(items: seq<Item>, name: string): (r: Option<nat>)
    ensures r.Some? ==> r.value < |items| && items[r.value].name == name
  {
    if items == [] then None
    else if items[|items| - 1].name == name then Some(|items| - 1)
    else LastAt(items[..|items| - 1], name)
  }

  /** No item after k has its name. */
  predicate NoneLater(items: seq<Item>, k: nat)
    requires k < |items|
  {
    forall j :: k < j < |items| ==> items[j].name != items[k].name
  }

  /** Looking up an item's name arrives at that item if and only if none after it has the name. */
  lemma {:induction false} FindsOwnExactly(items: seq<Item>, k: nat)
    requires k < |items|
    ensures var at := LastAt(items, items[k].name);
            && at.Some? && k <= at.value && LastNamed(items, items[k].name) == Some(items[at.value])
            && (at.value == k <==> NoneLater(items, k))
    decreases |items|
  {
    var most := items[..|items| - 1];
    if items[|items| - 1].name != items[k].name {
      FindsOwnExactly(most, k);
      assert NoneLater(items, k) <==> NoneLater(most, k);
    }
  }

  /** The first of the chain with a name. */
  function FirstOn(chain: seq<Placed>, name: string): Option<Item>
  {
    if chain == [] then None
    else if chain[0].item.name == name then Some(chain[0].item)
    else FirstOn(chain[1..], name)
  }

  /** Looking along a name's chain finds the item listed last under it. */
  lemma {:induction false} ChainFinds(items: seq<Item>, hash: string -> nat, name: string)
    ensures FirstOn(ChainOf(Place(items), hash, hash(name)), name) == LastNamed(items, name)
    decreases |items|
  {
    if items != [] {
      var most := items[..|items| - 1];
      ChainFinds(most, hash, name);
      assert Place(items)[..|items| - 1] == Place(most);
    }
  }
}
