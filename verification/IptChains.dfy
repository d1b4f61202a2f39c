/** The hash chains of vmsim/ipt.c: lists threaded by index through the entries, one per bucket. */
module IptChains {
  import opened VmTypes
  import opened PageTable

  const IPT_INVALID := -1

  datatype Entry = Entry(key: PageKey, dirty: bool, referenced: bool, valid: bool, age: Word, next: int, prev: int)

  /** The product wraps as an unsigned 32-bit one does. */
  function Hash(key: PageKey, size: nat): (h: nat)
    requires size > 0
    ensures h < size
  {
    key.pid * key.page % WORD % size
  }

  ghost predicate NoRepeats(s: seq<int>) {
    forall i, j :: 0 <= i < j < |s| ==> s[i] != s[j]
  }

  /** `chain` lists, from `head` on, the entries linked both ways; all are valid and hash to bucket `b`. */
  ghost predicate ChainOk(es: seq<Entry>, head: int, chain: seq<int>, b: int) {
    && |es| > 0
    && (forall k :: 0 <= k < |chain| ==> 0 <= chain[k] < |es|)
    && (forall k :: 0 <= k < |chain| ==> es[chain[k]].valid && Hash(es[chain[k]].key, |es|) == b)
    && NoRepeats(chain)
    && head == (if chain == [] then IPT_INVALID else chain[0])
    && (forall k, l :: 0 <= k < l < |chain| && l == k + 1 ==>
      es[chain[k]].next == chain[l] && es[chain[l]].prev == chain[k])
    && (chain != [] ==> es[chain[0]].prev == IPT_INVALID && es[chain[|chain| - 1]].next == IPT_INVALID)
  }

  /** One chain per bucket, and every valid entry in the chain of its own hash. */
  ghost predicate ChainsOk(es: seq<Entry>, hat: seq<int>, chains: seq<seq<int>>) {
    && |es| == |hat| == |chains| > 0
    && (forall b :: 0 <= b < |chains| ==> ChainOk(es, hat[b], chains[b], b))
    && (forall i :: 0 <= i < |es| && es[i].valid ==> i in chains[Hash(es[i].key, |es|)])
  }

  /** Chains of different buckets share no entry. */
  lemma ChainsDisjoint(es: seq<Entry>, hat: seq<int>, chains: seq<seq<int>>, a: nat, b: nat, k: nat, l: nat)
    requires ChainsOk(es, hat, chains) && a < |chains| && b < |chains| && a != b
    requires k < |chains[a]| && l < |chains[b]|
    ensures chains[a][k] != chains[b][l]
  {
    assert ChainOk(es, hat[a], chains[a], a) && ChainOk(es, hat[b], chains[b], b);
  }

  lemma ChainUntouched(es: seq<Entry>, es': seq<Entry>, head: int, chain: seq<int>, b: int)
    requires ChainOk(es, head, chain, b) && |es'| == |es|
    requires forall k :: 0 <= k < |chain| ==> es'[chain[k]] == es[chain[k]]
    ensures ChainOk(es', head, chain, b)
  {
  }

  // ---------------------------------------------------------------- the view as a table

  function SlotOf(e: Entry): Slot {
    if e.valid then Held(e.key, e.dirty, e.referenced, e.age) else Vacant
  }

  function SlotsOf(es: seq<Entry>): (s: seq<Slot>)
    ensures |s| == |es| && forall i :: 0 <= i < |es| ==> s[i] == SlotOf(es[i])
  {
    seq(|es|, i requires 0 <= i < |es| => SlotOf(es[i]))
  }

  // ---------------------------------------------------------------- insertion at the tail

  function Last(chain: seq<int>): int {
    if chain == [] then IPT_INVALID else chain[|chain| - 1]
  }

  function FreshEntry(key: PageKey, next: int, prev: int): Entry {
    Entry(key, false, false, true, TOP_BIT, next, prev)
  }

  ghost function Inserted(es: seq<Entry>, tail: int, idx: int, key: PageKey): seq<Entry>
    requires -1 <= tail < |es| && 0 <= idx < |es|
  {
    (if tail == IPT_INVALID then es else es[tail := es[tail].(next := idx)])[idx := FreshEntry(key, -1, tail)]
  }

  lemma InsertKeepsChain(es: seq<Entry>, head: int, chain: seq<int>, b: int, idx: int, key: PageKey)
    requires ChainOk(es, head, chain, b) && 0 <= idx < |es| && !es[idx].valid && Hash(key, |es|) == b
    ensures ChainOk(Inserted(es, Last(chain), idx, key), if chain == [] then idx else head, chain + [idx], b)
  {
    var chain' := chain + [idx];
    var es' := Inserted(es, Last(chain), idx, key);
    forall k | 0 <= k < |chain| ensures chain[k] != idx {}
    forall k | 0 <= k < |chain| - 1 ensures es'[chain[k]] == es[chain[k]] {
      assert chain[k] != chain[|chain| - 1];
    }
  }

  /** What insertion writes: one link and one whole entry. */
  lemma InsertEffect(es: seq<Entry>, tail: int, idx: int, key: PageKey)
    requires -1 <= tail < |es| && 0 <= idx < |es|
    ensures var es' := Inserted(es, tail, idx, key);
      && |es'| == |es| && es'[idx] == FreshEntry(key, -1, tail)
      && (forall i :: 0 <= i < |es| && i != idx ==> es'[i].key == es[i].key && es'[i].valid == es[i].valid)
      && (forall i :: 0 <= i < |es| && i !in {idx, tail} ==> es'[i] == es[i])
  {
  }

  lemma InsertIsLocal(es: seq<Entry>, hat: seq<int>, chains: seq<seq<int>>, idx: int, key: PageKey, b: nat)
    requires ChainsOk(es, hat, chains) && 0 <= idx < |es| && !es[idx].valid
    requires b < |chains| && b != Hash(key, |es|) && -1 <= Last(chains[Hash(key, |es|)]) < |es|
    ensures ChainOk(Inserted(es, Last(chains[Hash(key, |es|)]), idx, key), hat[b], chains[b], b)
  {
    var h := Hash(key, |es|);
    assert ChainOk(es, hat[h], chains[h], h) && ChainOk(es, hat[b], chains[b], b);
    InsertEffect(es, Last(chains[h]), idx, key);
    hide Inserted;
    ChainUntouched(es, Inserted(es, Last(chains[h]), idx, key), hat[b], chains[b], b);
  }

  lemma InsertKeepsMembers(es: seq<Entry>, hat: seq<int>, chains: seq<seq<int>>, idx: int, key: PageKey)
    requires ChainsOk(es, hat, chains) && 0 <= idx < |es| && !es[idx].valid
    requires -1 <= Last(chains[Hash(key, |es|)]) < |es|
    ensures var h := Hash(key, |es|);
      var es' := Inserted(es, Last(chains[h]), idx, key);
      |es'| == |es| &&
      forall i :: 0 <= i < |es'| && es'[i].valid ==> i in chains[h := chains[h] + [idx]][Hash(es'[i].key, |es'|)]
  {
    var h := Hash(key, |es|);
    InsertEffect(es, Last(chains[h]), idx, key);
    hide Inserted, ChainOk;
    assert (chains[h] + [idx])[|chains[h]|] == idx;
  }

  lemma LastInRange(es: seq<Entry>, hat: seq<int>, chains: seq<seq<int>>, h: nat)
    requires ChainsOk(es, hat, chains) && h < |chains|
    ensures -1 <= Last(chains[h]) < |es| && ChainOk(es, hat[h], chains[h], h)
  {
    assert ChainOk(es, hat[h], chains[h], h);
  }

  lemma LastIsValid(es: seq<Entry>, hat: seq<int>, chains: seq<seq<int>>, h: nat)
    requires ChainsOk(es, hat, chains) && h < |chains|
    ensures chains[h] == [] ==> Last(chains[h]) == IPT_INVALID
    ensures chains[h] != [] ==> 0 <= Last(chains[h]) < |es| && es[Last(chains[h])].valid
  {
    assert ChainOk(es, hat[h], chains[h], h);
  }

  lemma InsertKeepsChains(es: seq<Entry>, hat: seq<int>, chains: seq<seq<int>>, idx: int, key: PageKey)
    requires ChainsOk(es, hat, chains) && 0 <= idx < |es| && !es[idx].valid
    ensures var h := Hash(key, |es|);
      var chain := chains[h];
      -1 <= Last(chain) < |es|
      && ChainsOk(Inserted(es, Last(chain), idx, key), if chain == [] then hat[h := idx] else hat,
                  chains[h := chain + [idx]])
  {
    hide Inserted, ChainOk, Hash, Last;
    var h := Hash(key, |es|);
    var chain := chains[h];
    LastInRange(es, hat, chains, h);
    InsertKeepsChain(es, hat[h], chain, h, idx, key);
    InsertKeepsMembers(es, hat, chains, idx, key);
    InsertEffect(es, Last(chain), idx, key);
    var es' := Inserted(es, Last(chain), idx, key);
    var hat' := if chain == [] then hat[h := idx] else hat;
    forall b | 0 <= b < |chains| ensures ChainOk(es', hat'[b], chains[h := chain + [idx]][b], b) {
      if b != h { InsertIsLocal(es, hat, chains, idx, key, b); }
    }
  }

  // ---------------------------------------------------------------- removal at any position

  function Unlinked(es: seq<Entry>, idx: int): seq<Entry>
    requires 0 <= idx < |es| && -1 <= es[idx].prev < |es| && -1 <= es[idx].next < |es|
  {
    var prev, next := es[idx].prev, es[idx].next;
    var es1 := if next != IPT_INVALID then es[next := es[next].(prev := prev)] else es;
    var es2 := if prev != IPT_INVALID then es1[prev := es1[prev].(next := next)] else es1;
    es2[idx := es2[idx].(valid := false)]
  }

  function Dropped(chain: seq<int>, k: nat): seq<int>
    requires k < |chain|
  {
    chain[..k] + chain[k + 1..]
  }

  /** The neighbours of position `k` in its chain. */
  lemma Neighbours(es: seq<Entry>, head: int, chain: seq<int>, b: int, k: nat)
    requires ChainOk(es, head, chain, b) && k < |chain|
    ensures es[chain[k]].prev == if k == 0 then IPT_INVALID else chain[k - 1]
    ensures es[chain[k]].next == if k == |chain| - 1 then IPT_INVALID else chain[k + 1]
  {
  }

  /** What unlinking writes: two links and one valid bit. */
  lemma UnlinkEffect(es: seq<Entry>, idx: int)
    requires 0 <= idx < |es| && -1 <= es[idx].prev < |es| && -1 <= es[idx].next < |es|
    ensures var es', prev, next := Unlinked(es, idx), es[idx].prev, es[idx].next;
      && |es'| == |es|
      && (forall i :: 0 <= i < |es| ==> es'[i].key == es[i].key && es'[i].valid == (es[i].valid && i != idx))
      && (forall i :: 0 <= i < |es| ==> es'[i].prev == if i == next then prev else es[i].prev)
      && (forall i :: 0 <= i < |es| ==> es'[i].next == if i == prev then next else es[i].next)
      && (forall i :: 0 <= i < |es| && i !in {idx, prev, next} ==> es'[i] == es[i])
  {
    forall i | 0 <= i < |es| ensures UnlinkedAt(es, idx, Unlinked(es, idx), i) {
      UnlinkEffectAt(es, idx, i);
    }
    hide Unlinked;
  }

  predicate UnlinkedAt(es: seq<Entry>, idx: int, es': seq<Entry>, i: nat)
    requires i < |es| && 0 <= idx < |es|
  {
    var prev, next := es[idx].prev, es[idx].next;
    && |es'| == |es|
    && es'[i] == es[i].(prev := if i == next then prev else es[i].prev, next := if i == prev then next else es[i].next,
                        valid := es[i].valid && i != idx)
  }

  lemma UnlinkEffectAt(es: seq<Entry>, idx: int, i: nat)
    requires 0 <= idx < |es| && -1 <= es[idx].prev < |es| && -1 <= es[idx].next < |es| && i < |es|
    ensures UnlinkedAt(es, idx, Unlinked(es, idx), i)
  {
  }

  /** The chain without position `k` is linked again, across the gap too. */
  lemma UnlinkRelinks(es: seq<Entry>, head: int, chain: seq<int>, b: int, k: nat, m: nat)
    requires ChainOk(es, head, chain, b) && k < |chain| && m + 1 < |Dropped(chain, k)|
    requires -1 <= es[chain[k]].prev < |es| && -1 <= es[chain[k]].next < |es|
    ensures var es', chain' := Unlinked(es, chain[k]), Dropped(chain, k);
      && 0 <= chain'[m] < |es'| && 0 <= chain'[m + 1] < |es'|
      && es'[chain'[m]].next == chain'[m + 1] && es'[chain'[m + 1]].prev == chain'[m]
  {
    Neighbours(es, head, chain, b, k);
    UnlinkEffect(es, chain[k]);
    hide Unlinked;
    if m + 1 < k {
      assert es[chain[m]].next == chain[m + 1];
    } else if m >= k {
      assert es[chain[m + 1]].next == chain[m + 2];
    }
  }

  lemma UnlinkKeepsChain(es: seq<Entry>, head: int, chain: seq<int>, b: int, k: nat)
    requires ChainOk(es, head, chain, b) && k < |chain|
    requires -1 <= es[chain[k]].prev < |es| && -1 <= es[chain[k]].next < |es|
    ensures ChainOk(Unlinked(es, chain[k]), if k == 0 then es[chain[k]].next else head, Dropped(chain, k), b)
  {
    hide Unlinked, Hash, Dropped, NoRepeats;
    Neighbours(es, head, chain, b, k);
    UnlinkKeepsEntries(es, head, chain, b, k);
    DroppedAt(chain, k);
    var es' := Unlinked(es, chain[k]);
    var chain' := Dropped(chain, k);
    forall m, n | 0 <= m < n < |chain'| && n == m + 1
      ensures 0 <= chain'[m] < |es'| && 0 <= chain'[n] < |es'|
      ensures es'[chain'[m]].next == chain'[n] && es'[chain'[n]].prev == chain'[m]
    {
      UnlinkRelinks(es, head, chain, b, k, m);
    }
    UnlinkKeepsEnds(es, head, chain, b, k);
  }

  /** The entries left on the chain are valid, in their bucket, and on it once. */
  lemma UnlinkKeepsEntries(es: seq<Entry>, head: int, chain: seq<int>, b: int, k: nat)
    requires ChainOk(es, head, chain, b) && k < |chain|
    requires -1 <= es[chain[k]].prev < |es| && -1 <= es[chain[k]].next < |es|
    ensures var es', chain' := Unlinked(es, chain[k]), Dropped(chain, k);
      && |es'| == |es| && NoRepeats(chain')
      && (forall m :: 0 <= m < |chain'| ==> 0 <= chain'[m] < |es|)
      && (forall m :: 0 <= m < |chain'| ==> es'[chain'[m]].valid && Hash(es'[chain'[m]].key, |es'|) == b)
  {
    hide Unlinked, Hash, Dropped;
    UnlinkEffect(es, chain[k]);
    DroppedAt(chain, k);
  }

  /** The ends of the chain point nowhere. */
  lemma UnlinkKeepsEnds(es: seq<Entry>, head: int, chain: seq<int>, b: int, k: nat)
    requires ChainOk(es, head, chain, b) && k < |chain|
    requires -1 <= es[chain[k]].prev < |es| && -1 <= es[chain[k]].next < |es|
    ensures var es', chain' := Unlinked(es, chain[k]), Dropped(chain, k);
      |es'| == |es| && (chain' != [] ==>
        && 0 <= chain'[0] < |es| && es'[chain'[0]].prev == IPT_INVALID
        && 0 <= chain'[|chain'| - 1] < |es| && es'[chain'[|chain'| - 1]].next == IPT_INVALID)
  {
    hide Unlinked, Hash, Dropped;
    Neighbours(es, head, chain, b, k);
    UnlinkEffect(es, chain[k]);
    DroppedAt(chain, k);
    if k > 0 { Neighbours(es, head, chain, b, k - 1); }
    if k + 1 < |chain| { Neighbours(es, head, chain, b, k + 1); }
  }

  /** The positions of a chain without position `k`. */
  lemma DroppedAt(chain: seq<int>, k: nat)
    requires k < |chain|
    ensures |Dropped(chain, k)| == |chain| - 1
    ensures forall m :: 0 <= m < |chain| - 1 ==> Dropped(chain, k)[m] == chain[if m < k then m else m + 1]
  {
  }

  /** Unlinking position `k` of bucket `h` touches entries of that bucket only. */
  lemma UnlinkIsLocal(es: seq<Entry>, hat: seq<int>, chains: seq<seq<int>>, h: nat, k: nat, b: nat)
    requires ChainsOk(es, hat, chains) && h < |chains| && k < |chains[h]| && b < |chains| && b != h
    ensures var idx := chains[h][k];
      && 0 <= idx < |es| && -1 <= es[idx].prev < |es| && -1 <= es[idx].next < |es|
      && ChainOk(Unlinked(es, idx), hat[b], chains[b], b)
  {
    var idx := chains[h][k];
    assert ChainOk(es, hat[h], chains[h], h) && ChainOk(es, hat[b], chains[b], b);
    Neighbours(es, hat[h], chains[h], h, k);
    UnlinkEffect(es, idx);
    hide Unlinked;
    ChainUntouched(es, Unlinked(es, idx), hat[b], chains[b], b);
  }

  lemma UnlinkKeepsMembers(es: seq<Entry>, hat: seq<int>, chains: seq<seq<int>>, h: nat, k: nat)
    requires ChainsOk(es, hat, chains) && h < |chains| && k < |chains[h]|
    requires var idx := chains[h][k]; 0 <= idx < |es| && -1 <= es[idx].prev < |es| && -1 <= es[idx].next < |es|
    ensures var es' := Unlinked(es, chains[h][k]);
      forall i :: 0 <= i < |es'| && es'[i].valid ==> i in chains[h := Dropped(chains[h], k)][Hash(es'[i].key, |es'|)]
  {
    var chain, idx := chains[h], chains[h][k];
    UnlinkEffect(es, idx);
    hide Unlinked, ChainOk, Hash, Dropped;
    var es' := Unlinked(es, idx);
    forall i | 0 <= i < |es'| && es'[i].valid
      ensures i in chains[h := Dropped(chain, k)][Hash(es'[i].key, |es'|)]
    {
      if Hash(es[i].key, |es|) == h { DroppedKeeps(chain, k, i); }
    }
  }

  lemma DroppedKeeps(chain: seq<int>, k: nat, i: int)
    requires k < |chain| && i in chain && i != chain[k]
    ensures i in Dropped(chain, k)
  {
    var m :| 0 <= m < |chain| && chain[m] == i;
    assert Dropped(chain, k)[if m < k then m else m - 1] == i;
  }

  /** Where position `k` of bucket `h` is, and what it is linked to. */
  lemma InBucket(es: seq<Entry>, hat: seq<int>, chains: seq<seq<int>>, h: nat, k: nat)
    requires ChainsOk(es, hat, chains) && h < |chains| && k < |chains[h]|
    ensures var idx := chains[h][k];
      && 0 <= idx < |es| && es[idx].valid && Hash(es[idx].key, |es|) == h
      && -1 <= es[idx].prev < |es| && -1 <= es[idx].next < |es|
      && (es[idx].prev == IPT_INVALID <==> k == 0)
      && ChainOk(es, hat[h], chains[h], h)
  {
    assert ChainOk(es, hat[h], chains[h], h);
    Neighbours(es, hat[h], chains[h], h, k);
  }

  lemma UnlinkKeepsChains(es: seq<Entry>, hat: seq<int>, chains: seq<seq<int>>, h: nat, k: nat)
    requires ChainsOk(es, hat, chains) && h < |chains| && k < |chains[h]|
    ensures var idx := chains[h][k];
      && 0 <= idx < |es| && -1 <= es[idx].prev < |es| && -1 <= es[idx].next < |es|
      && ChainsOk(Unlinked(es, idx), if es[idx].prev == IPT_INVALID then hat[h := es[idx].next] else hat,
                  chains[h := Dropped(chains[h], k)])
  {
    hide Unlinked, ChainOk, Hash, Dropped;
    InBucket(es, hat, chains, h, k);
    var chain, idx := chains[h], chains[h][k];
    UnlinkKeepsChain(es, hat[h], chain, h, k);
    UnlinkKeepsMembers(es, hat, chains, h, k);
    UnlinkEffect(es, idx);
    var es' := Unlinked(es, idx);
    var hat' := if es[idx].prev == IPT_INVALID then hat[h := es[idx].next] else hat;
    var chains' := chains[h := Dropped(chain, k)];
    forall b | 0 <= b < |chains'| ensures ChainOk(es', hat'[b], chains'[b], b) {
      if b != h { UnlinkIsLocal(es, hat, chains, h, k, b); }
    }
  }

  /** To the table, insertion fills one slot ... */
  lemma InsertedSlots(es: seq<Entry>, tail: int, idx: int, key: PageKey)
    requires -1 <= tail < |es| && 0 <= idx < |es|
    ensures SlotsOf(Inserted(es, tail, idx, key)) == SlotsOf(es)[idx := Held(key, false, false, TOP_BIT)]
  {
  }

  /** ... and unlinking vacates one. */
  lemma UnlinkedSlots(es: seq<Entry>, idx: int)
    requires 0 <= idx < |es| && -1 <= es[idx].prev < |es| && -1 <= es[idx].next < |es|
    ensures SlotsOf(Unlinked(es, idx)) == SlotsOf(es)[idx := Vacant]
  {
  }

  /** Changing an entry but not its page, its links or its validity keeps the chains. */
  lemma RetagKeepsChains(es: seq<Entry>, hat: seq<int>, chains: seq<seq<int>>, es': seq<Entry>)
    requires ChainsOk(es, hat, chains) && |es'| == |es|
    requires forall i :: 0 <= i < |es| ==>
      es'[i].key == es[i].key && es'[i].valid == es[i].valid && es'[i].next == es[i].next && es'[i].prev == es[i].prev
    ensures ChainsOk(es', hat, chains)
  {
    forall b | 0 <= b < |chains| ensures ChainOk(es', hat[b], chains[b], b) {
      assert ChainOk(es, hat[b], chains[b], b);
    }
  }
}
