/**
 The local-storage sweep that a handoff makes before and while seeding an interview: keys of an earlier
 runtime guest are removed while the storage is walked by index, from the last key to the first.
 */
module RuntimeStorage {
  import opened Wrappers

  const INTERVIEW_CONFIG := "interviewConfig"

  /** An engine key, or one scoped to an owner: the base, a colon and anything. */
  predicate EngineKey(key: string) {
    || ScopedTo(key, INTERVIEW_CONFIG)
    || ScopedTo(key, "interviewData")
    || ScopedTo(key, "interviewActiveSession")
    || ScopedTo(key, "pendingRetakeParent")
  }

  predicate ScopedTo(key: string, base: string) { key == base || base + ":" <= key }

  datatype Item = Item(key: string, value: string)

  /** The entries that no engine key names, in their order. */
  function Swept(items: seq<Item>): seq<Item> {
    if items == [] then []
    else if EngineKey(items[0].key) then Swept(items[1..])
    else [items[0]] + Swept(items[1..])
  }

  function Lookup(items: seq<Item>, key: string): Option<string> {
    if items == [] then None else if items[0].key == key then Some(items[0].value) else Lookup(items[1..], key)
  }

  function Without(items: seq<Item>, key: string): seq<Item> {
    if items == [] then []
    else if items[0].key == key then items[1..]
    else [items[0]] + Without(items[1..], key)
  }

  /** setItem on the list of entries. */
  function With(items: seq<Item>, key: string, value: string): seq<Item> {
    if items == [] then [Item(key, value)]
    else if items[0].key == key then [Item(key, value)] + items[1..]
    else [items[0]] + With(items[1..], key, value)
  }

  ghost predicate KeysDistinct(items: seq<Item>) {
    forall i, j :: 0 <= i < j < |items| ==> items[i].key != items[j].key
  }

  lemma {:induction false} WithoutMiddle(before: seq<Item>, x: Item, after: seq<Item>)
    requires KeysDistinct(before + [x] + after)
    ensures Without(before + [x] + after, x.key) == before + after
  {
    var all := before + [x] + after;
    if before == [] {
      assert all[1..] == after && before + after == after;
    } else {
      assert all[0] == before[0] && all[|before|] == x;
      assert all[1..] == before[1..] + [x] + after;
      WithoutMiddle(before[1..], x, after);
    }
  }

  lemma WithoutKeepsDistinct(before: seq<Item>, x: Item, after: seq<Item>)
    requires KeysDistinct(before + [x] + after)
    ensures KeysDistinct(before + after)
  {
    var all, less := before + [x] + after, before + after;
    forall i, j | 0 <= i < j < |less| ensures less[i].key != less[j].key {
      var i', j' := if i < |before| then i else i + 1, if j < |before| then j else j + 1;
      assert all[i'] == less[i] && all[j'] == less[j];
    }
  }

  lemma {:induction false} WithLookup(items: seq<Item>, key: string, value: string)
    ensures forall k :: Lookup(With(items, key, value), k) == if k == key then Some(value) else Lookup(items, k)
  {
    if items != [] && items[0].key != key { WithLookup(items[1..], key, value); }
  }

  lemma {:induction false} SweptLookup(items: seq<Item>, k: string)
    ensures Lookup(Swept(items), k) == if EngineKey(k) then None else Lookup(items, k)
  {
    if items != [] {
      SweptLookup(items[1..], k);
      assert !EngineKey(items[0].key) ==> Swept(items)[1..] == Swept(items[1..]);
    }
  }

  lemma {:induction false} WithKeysDistinct(items: seq<Item>, key: string, value: string)
    requires KeysDistinct(items)
    ensures KeysDistinct(With(items, key, value))
    ensures forall x :: x in With(items, key, value) ==> x == Item(key, value) || (x in items && x.key != key)
  {
    if items != [] && items[0].key != key { WithKeysDistinct(items[1..], key, value); }
  }

  /** A key of the engine, bare or scoped to a guest. */
  predicate OfGuest(key: string) {
    || key == "interviewConfig" || "interviewConfig:" <= key
    || key == "interviewData" || "interviewData:" <= key
    || key == "interviewActiveSession" || "interviewActiveSession:" <= key
    || key == "pendingRetakeParent" || "pendingRetakeParent:" <= key
  }

  lemma EngineKeyIff(key: string)
    ensures EngineKey(key) <==> OfGuest(key)
  {
    assert "interviewConfig" + ":" == "interviewConfig:" && "interviewData" + ":" == "interviewData:";
    assert "interviewActiveSession" + ":" == "interviewActiveSession:";
    assert "pendingRetakeParent" + ":" == "pendingRetakeParent:";
  }

  class Storage {
    /** The entries in the order in which `key(index)` lists them. */
    var items: seq<Item>

    ghost predicate Valid() reads this { KeysDistinct(items) }

    method RemoveItem(key: string)
      modifies this
      ensures items == Without(old(items), key)
    {
      items := Without(items, key);
    }

    method SetItem(key: string, value: string)
      requires Valid()
      modifies this
      ensures Valid() && items == With(old(items), key, value)
    {
      WithKeysDistinct(items, key, value);
      items := With(items, key, value);
    }

    /** No engine key is skipped by the removals under way, and every other entry stays, in its order. */
    method ClearRuntimeInterview()
      requires Valid()
      modifies this
      ensures Valid() && items == Swept(old(items))
      ensures forall k :: Lookup(items, k) == if OfGuest(k) then None else Lookup(old(items), k)
    {
      ghost var was := items;
      var index := |items| - 1;
      assert was[..|was|] == was;
      while index >= 0
        invariant -1 <= index < |was|
        invariant Valid() && items == was[..index + 1] + Swept(was[index + 1..])
        decreases index
      {
        ghost var before, x, after := was[..index], was[index], Swept(was[index + 1..]);
        assert was[..index + 1] == before + [x];
        assert was[index..][1..] == was[index + 1..];
        var key := items[index].key;
        if EngineKey(key) {
          WithoutMiddle(before, x, after);
          WithoutKeepsDistinct(before, x, after);
          RemoveItem(key);
        } else {
          assert items == before + ([x] + after);
        }
        index := index - 1;
      }
      assert was[0..] == was && items == Swept(was);
      forall k: string ensures Lookup(items, k) == if OfGuest(k) then None else Lookup(was, k) {
        SweptLookup(was, k);
        EngineKeyIff(k);
      }
    }

    /** The two copies of the new guest's configuration are the only engine keys left. */
    method SeedRuntimeInterview(principalId: string, serialized: string)
      requires Valid()
      modifies this
      ensures Valid()
      ensures forall k :: Lookup(items, k) ==
                if k == "interviewConfig" || k == "interviewConfig:" + principalId then Some(serialized)
                else if OfGuest(k) then None
                else Lookup(old(items), k)
    {
      ClearRuntimeInterview();
      ghost var swept := items;
      SetItem(INTERVIEW_CONFIG, serialized);
      ghost var once := items;
      SetItem(INTERVIEW_CONFIG + ":" + principalId, serialized);
      WithLookup(swept, INTERVIEW_CONFIG, serialized);
      WithLookup(once, INTERVIEW_CONFIG + ":" + principalId, serialized);
      assert INTERVIEW_CONFIG + ":" + principalId == "interviewConfig:" + principalId;
    }
  }
}
