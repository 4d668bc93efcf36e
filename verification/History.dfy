/** The store as a fold over its mutation history. Revision `r` of the discovery store is what
    the first `r` mutations leave behind; a watch sees it through a key prefix. */
module History {

  type Key = string

  datatype Entry = Entry(value: string, lease: int, rev: nat)

  /** One mutation. The mutation at index `i` of a history has revision `i + 1`. */
  datatype Event = Event(isPut: bool, key: Key, lease: int, value: string)

  type Store = map<Key, Entry>

  function Max(a: nat, b: nat): nat { if a < b then b else a }

  predicate Under(prefix: string, key: Key) { prefix <= key }

  function Apply(s: Store, e: Event, rev: nat): Store {
    if e.isPut then s[e.key := Entry(e.value, e.lease, rev)] else s - {e.key}
  }

  function StoreAt(h: seq<Event>, r: nat): Store
    requires r <= |h|
  {
    if r == 0 then map[] else Apply(StoreAt(h, r - 1), h[r - 1], r)
  }

  function Restrict(s: Store, prefix: string): Store {
    map k | k in s && Under(prefix, k) :: s[k]
  }

  /** The store at revision `r` as seen by a watch on `prefix`. */
  function View(h: seq<Event>, r: nat, prefix: string): Store
    requires r <= |h|
  {
    Restrict(StoreAt(h, r), prefix)
  }

  /** No mutation after revision `r` touches a key under `prefix`. */
  ghost predicate Covers(h: seq<Event>, prefix: string, r: nat) {
    forall i :: r <= i < |h| ==> !Under(prefix, h[i].key)
  }

  lemma {:induction false} StoreAtPrefix(h: seq<Event>, t: seq<Event>, r: nat)
    requires r <= |h|
    ensures StoreAt(h + t, r) == StoreAt(h, r)
  {
    if r > 0 {
      StoreAtPrefix(h, t, r - 1);
      assert (h + t)[r - 1] == h[r - 1];
    }
  }

  lemma StoreAtAppend(h: seq<Event>, e: Event)
    ensures StoreAt(h + [e], |h| + 1) == Apply(StoreAt(h, |h|), e, |h| + 1)
  {
    StoreAtPrefix(h, [e], |h|);
  }

  /** One mutation moves the view by that mutation if it is under the prefix, and not at all otherwise. */
  lemma ViewStep(h: seq<Event>, r: nat, prefix: string)
    requires r < |h|
    ensures View(h, r + 1, prefix) ==
            if Under(prefix, h[r].key) then Apply(View(h, r, prefix), h[r], r + 1) else View(h, r, prefix)
  {
    var a, b := StoreAt(h, r), StoreAt(h, r + 1);
    assert b == Apply(a, h[r], r + 1);
  }

  lemma {:induction false} ViewSkips(h: seq<Event>, r: nat, r': nat, prefix: string)
    requires r <= r' <= |h|
    requires forall i :: r <= i < r' ==> !Under(prefix, h[i].key)
    ensures View(h, r, prefix) == View(h, r', prefix)
    decreases r' - r
  {
    if r < r' {
      ViewStep(h, r, prefix);
      ViewSkips(h, r + 1, r', prefix);
    }
  }

  /** Every entry records the revision of the mutation that wrote it, the last one of its key. */
  lemma {:induction false} EntryRevision(h: seq<Event>, r: nat, k: Key)
    requires r <= |h| && k in StoreAt(h, r)
    ensures var e := StoreAt(h, r)[k];
            && 0 < e.rev <= r && h[e.rev - 1] == Event(true, k, e.lease, e.value)
            && forall i :: e.rev <= i < r ==> h[i].key != k
  {
    if k in StoreAt(h, r) && !(h[r - 1].isPut && h[r - 1].key == k) {
      EntryRevision(h, r - 1, k);
    }
  }

  /** The value of a key depends only on the mutations of that key: if none happened since `r`, it
      still has its value of revision `r`. */
  lemma {:induction false} KeyUntouched(h: seq<Event>, r: nat, r': nat, k: Key)
    requires r <= r' <= |h|
    requires forall i :: r <= i < r' ==> h[i].key != k
    ensures k in StoreAt(h, r) <==> k in StoreAt(h, r')
    ensures k in StoreAt(h, r) ==> StoreAt(h, r)[k] == StoreAt(h, r')[k]
    decreases r' - r
  {
    if r < r' {
      KeyUntouched(h, r, r' - 1, k);
    }
  }
}
