/** The correlation table `messageIds`. The program keys it by the string
    `FormatKey(srcChatId, srcMessageId, dstChatId)`; since that encoding is
    injective, the model keys it by the triple itself, and `Encode` with
    the lemmas below shows that the string-keyed table gives the same
    answers. The class in forwarder.dfy holds the table; these functions
    give its value after a write and the answer to a read. */
module CorrelationStore {
  import opened Types
  import opened KeyFormat

  /** (source chat, source message, destination chat). */
  datatype Key = Key(srcChatId: Int64, srcMessageId: Int64, dstChatId: Int64)

  type Table = map<Key, Int64>

  function KeyString(k: Key): string {
    FormatKey(k.srcChatId, k.srcMessageId, k.dstChatId)
  }

  /** `getMessageId`: the stored id, or Go's zero value 0 for a key never written. */
  function Lookup(ids: Table, srcChatId: Int64, srcMessageId: Int64, dstChatId: Int64): Int64 {
    var key := Key(srcChatId, srcMessageId, dstChatId);
    if key in ids then ids[key] else 0
  }

  /** `setMessageId`: an unconditional upsert; no key is ever removed. */
  function Store(ids: Table, srcChatId: Int64, srcMessageId: Int64, dstChatId: Int64, dstMessageId: Int64): (r: Table)
    ensures r.Keys == ids.Keys + {Key(srcChatId, srcMessageId, dstChatId)}
  {
    ids[Key(srcChatId, srcMessageId, dstChatId) := dstMessageId]
  }

  /** A read after a write returns the written id for the written triple
      and is unaffected for every other triple. */
  lemma LookupStore(ids: Table, a: Int64, b: Int64, c: Int64, v: Int64, a': Int64, b': Int64, c': Int64)
    ensures Lookup(Store(ids, a, b, c, v), a', b', c') ==
            if a' == a && b' == b && c' == c then v else Lookup(ids, a', b', c')
  {
  }

  /** A second write for the same triple replaces the first entirely. */
  lemma StoreOverwrites(ids: Table, a: Int64, b: Int64, c: Int64, v1: Int64, v2: Int64)
    ensures Store(Store(ids, a, b, c, v1), a, b, c, v2) == Store(ids, a, b, c, v2)
  {
  }

  /* ---------- the table as the program keeps it: keyed by strings ---------- */

  lemma KeyStringInjectiveAt(k1: Key, k2: Key)
    requires KeyString(k1) == KeyString(k2)
    ensures k1 == k2
  {
    FormatKeyInjective(k1.srcChatId, k1.srcMessageId, k1.dstChatId,
                       k2.srcChatId, k2.srcMessageId, k2.dstChatId);
  }

  lemma KeyStringInjective()
    ensures forall k1, k2 :: KeyString(k1) == KeyString(k2) ==> k1 == k2
  {
    forall k1, k2 | KeyString(k1) == KeyString(k2)
      ensures k1 == k2
    {
      KeyStringInjectiveAt(k1, k2);
    }
  }

  /** The string-keyed map the program holds for a table. */
  function Encode(ids: Table): map<string, Int64> {
    KeyStringInjective();
    map k | k in ids :: KeyString(k) := ids[k]
  }

  /** Go's `m[key]`: the value, or the zero value when the key is absent. */
  function GoIndex(m: map<string, Int64>, key: string): Int64 {
    if key in m then m[key] else 0
  }

  /** `getMessageId` on the string-keyed map answers as `Lookup` does. */
  lemma EncodedLookup(ids: Table, a: Int64, b: Int64, c: Int64)
    ensures GoIndex(Encode(ids), FormatKey(a, b, c)) == Lookup(ids, a, b, c)
  {
    var k := Key(a, b, c);
    assert KeyString(k) == FormatKey(a, b, c);
    KeyStringInjective();
    if k in ids {
      assert FormatKey(a, b, c) in Encode(ids);
    }
  }

  /** The string keys of an encoded table are the strings of its keys. */
  lemma InEncode(ids: Table, k: Key)
    ensures KeyString(k) in Encode(ids) <==> k in ids
    ensures k in ids ==> Encode(ids)[KeyString(k)] == ids[k]
  {
    KeyStringInjective();
    if k in ids {
      assert KeyString(k) in Encode(ids);
    }
  }

  /** Every entry of the string-keyed map after a write is the written
      entry or an entry that was there before. */
  lemma EncodedStoreEntries(ids: Table, k: Key, v: Int64, s: string)
    requires s in Encode(ids[k := v])
    ensures s in Encode(ids)[KeyString(k) := v]
    ensures Encode(ids[k := v])[s] == Encode(ids)[KeyString(k) := v][s]
  {
    var j :| j in ids[k := v] && KeyString(j) == s;
    InEncode(ids[k := v], j);
    if j != k {
      InEncode(ids, j);
      if KeyString(j) == KeyString(k) {
        KeyStringInjectiveAt(j, k);
      }
    }
  }

  /** A write loses no entry of the string-keyed map. */
  lemma EncodedStoreKeeps(ids: Table, k: Key, v: Int64, s: string)
    requires s in Encode(ids)[KeyString(k) := v]
    ensures s in Encode(ids[k := v])
  {
  }

  /** `setMessageId` on the string-keyed map is `Store` on the table. */
  lemma EncodedStore(ids: Table, a: Int64, b: Int64, c: Int64, v: Int64)
    ensures Encode(Store(ids, a, b, c, v)) == Encode(ids)[FormatKey(a, b, c) := v]
  {
    var k := Key(a, b, c);
    var lhs, rhs := Encode(ids[k := v]), Encode(ids)[KeyString(k) := v];
    forall s | s in lhs ensures s in rhs && lhs[s] == rhs[s] {
      EncodedStoreEntries(ids, k, v, s);
    }
    forall s | s in rhs ensures s in lhs {
      EncodedStoreKeeps(ids, k, v, s);
    }
    assert lhs == rhs;
  }

  /** A string-keyed table never written to answers 0 for every triple. */
  lemma EncodedEmpty(a: Int64, b: Int64, c: Int64)
    ensures GoIndex(Encode(map[]), FormatKey(a, b, c)) == 0
  {
  }
}
