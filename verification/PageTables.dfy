/** The open-addressed page table as a value: a sequence of entries searched
    by linear probing. */
module PageTables {

  const PAGE_CAPACITY := 8192

  datatype Entry = Entry(key: nat, frame: nat)

  /** The slot where probing for a key starts.  A key is a page number plus
      one, zero marks an empty slot.  Page numbers are below 2^32, so folding
      their upper half into the lower leaves them as they are. */
  function Hash(key: nat): (slot: nat)
    requires key > 0
    ensures slot < PAGE_CAPACITY
  {
    (key - 1) * 0x9e3779b1 % 0x1_0000_0000 % PAGE_CAPACITY
  }

  function Next(slot: nat): nat {
    if slot + 1 == PAGE_CAPACITY then 0 else slot + 1
  }

  /** How many steps of `Next` lead from one slot to another. */
  ghost function Distance(from: int, to: int): int {
    if from <= to then to - from else to - from + PAGE_CAPACITY
  }

  /** `slotOf` says exactly where each key is stored, and every slot that
      probing for a stored key passes is occupied. */
  ghost predicate Probing(entries: seq<Entry>, slotOf: map<nat, nat>) {
    && |entries| == PAGE_CAPACITY
    && 0 !in slotOf
    && (forall k :: k in slotOf ==> slotOf[k] < PAGE_CAPACITY && entries[slotOf[k]].key == k)
    && (forall s :: 0 <= s < PAGE_CAPACITY && entries[s].key != 0 ==>
          entries[s].key in slotOf && slotOf[entries[s].key] == s)
    && (forall k, t {:trigger Distance(Hash(k), t)} ::
        k in slotOf && 0 <= t < PAGE_CAPACITY && Distance(Hash(k), t) < Distance(Hash(k), slotOf[k]) ==>
          entries[t].key != 0)
  }

  ghost predicate Full(entries: seq<Entry>) {
    forall s :: 0 <= s < |entries| ==> entries[s].key != 0
  }

  /** What a search for `key` knows after `probe` steps. */
  ghost predicate Passed(entries: seq<Entry>, key: nat, probe: nat)
    requires key > 0
  {
    && |entries| == PAGE_CAPACITY
    && forall t {:trigger Distance(Hash(key), t)} {:trigger entries[t]} ::
       0 <= t < PAGE_CAPACITY && Distance(Hash(key), t) < probe ==>
         entries[t].key != 0 && entries[t].key != key
  }

  lemma PassedStep(entries: seq<Entry>, key: nat, slot: nat, probe: nat)
    requires key > 0 && Passed(entries, key, probe) && slot < PAGE_CAPACITY && Distance(Hash(key), slot) == probe
    requires entries[slot].key != 0 && entries[slot].key != key
    ensures Passed(entries, key, probe + 1)
    ensures probe + 1 < PAGE_CAPACITY ==> Distance(Hash(key), Next(slot)) == probe + 1
  {
  }

  lemma AbsentAtEmptySlot(entries: seq<Entry>, slotOf: map<nat, nat>, key: nat, slot: nat)
    requires key > 0 && Probing(entries, slotOf) && slot < PAGE_CAPACITY && entries[slot].key == 0
    requires Passed(entries, key, Distance(Hash(key), slot))
    ensures key !in slotOf
  {
  }

  lemma AbsentWhenExhausted(entries: seq<Entry>, slotOf: map<nat, nat>, key: nat)
    requires key > 0 && Probing(entries, slotOf) && Passed(entries, key, PAGE_CAPACITY)
    ensures key !in slotOf && Full(entries)
  {
    forall t | 0 <= t < PAGE_CAPACITY ensures entries[t].key != 0 && entries[t].key != key {
      assert Distance(Hash(key), t) < PAGE_CAPACITY;
    }
  }

  lemma InsertKeepsProbing(entries: seq<Entry>, slotOf: map<nat, nat>, key: nat, slot: nat, frame: nat)
    requires key > 0 && Probing(entries, slotOf) && slot < PAGE_CAPACITY && entries[slot].key == 0
    requires Passed(entries, key, Distance(Hash(key), slot))
    ensures key !in slotOf
    ensures Probing(entries[slot := Entry(key, frame)], slotOf[key := slot])
  {
    AbsentAtEmptySlot(entries, slotOf, key, slot);
  }
}
