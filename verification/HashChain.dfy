/** The per-broker hash chain: `computeHash`, `verifyChain`, and what an accepted
    chain commits to. The digest is a parameter; what is assumed of it is said in
    each lemma, and only about the payloads that the lemma's chains contain. The
    serializer is named once, in `Canonically`, so that no proof about chains
    depends on how it works. */
module HashChain {
  import opened Texts
  import opened Canonical
  import Utf8

  type Digest = Utf8.Bytes -> Text

  /** How records are hashed: a digest of bytes, an encoding of text as bytes, and a
      serializer of records. */
  datatype Scheme = Scheme(digest: Digest, encode: Text -> Utf8.Bytes, serialize: Value -> Result<Text>)

  /** The scheme of the trade log, for a given digest. */
  function Canonically(h: Digest): Scheme {
    Scheme(h, t => Utf8.Encode(t), v => Canon(v))
  }

  const GENESIS_HASH: Text := Repeat(ZERO, 64)

  predicate IsHexDigit(c: CodeUnit) {
    IsDigit(c) || 0x61 <= c <= 0x66 || 0x41 <= c <= 0x46
  }

  /** The pattern that `computeHash` tests, with upper case allowed. */
  predicate IsHex64(t: Text) {
    |t| == 64 && AllHexDigits(t)
  }

  predicate AllHexDigits(t: Text) {
    t == [] || (IsHexDigit(t[0]) && AllHexDigits(t[1..]))
  }

  lemma {:induction false} HexDigitAt(t: Text)
    ensures AllHexDigits(t) <==> forall i | 0 <= i < |t| :: IsHexDigit(t[i])
  {
    if t != [] {
      HexDigitAt(t[1..]);
      assert t == [t[0]] + t[1..];
    }
  }

  ghost predicate HexDigest(h: Digest) {
    forall b: Utf8.Bytes :: IsHex64(h(b))
  }

  /** Digests are 64 hex digits, serialized text is well formed, and the encoding loses nothing
      of well-formed text. */
  ghost predicate Sound(s: Scheme) {
    && HexDigest(s.digest)
    && (forall v: Value :: s.serialize(v).Ok? ==> Utf8.WellFormed(s.serialize(v).value))
    && (forall a: Text, b: Text ::
          Utf8.WellFormed(a) && Utf8.WellFormed(b) && s.encode(a) == s.encode(b) ==> a == b)
  }

  lemma CanonicallySound(h: Digest)
    requires HexDigest(h)
    ensures Sound(Canonically(h))
  {
    forall v: Value | Canon(v).Ok? ensures Utf8.WellFormed(Canon(v).value) {
      CanonWellFormed(v);
    }
    forall a: Text, b: Text | Utf8.WellFormed(a) && Utf8.WellFormed(b) && Utf8.Encode(a) == Utf8.Encode(b)
      ensures a == b
    {
      Utf8.EncodeUnique(a, b);
    }
  }

  function Payload(s: Scheme, prevHash: Text, canonical: Text): Utf8.Bytes {
    s.encode(prevHash + [BAR] + canonical)
  }

  function ComputeHash(s: Scheme, record: Value, prevHash: Text): Result<Text> {
    if !IsHex64(prevHash) then TypeError
    else
      var c := s.serialize(record);
      if c.Ok? then Ok(s.digest(Payload(s, prevHash, c.value))) else TypeError
  }

  datatype ChainItem = ChainItem(hash: Text, prevHash: Text, record: Value)

  function Expected(items: seq<ChainItem>, i: nat): Text
    requires i <= |items|
  {
    if i == 0 then GENESIS_HASH else items[i - 1].hash
  }

  predicate LinkOk(items: seq<ChainItem>, i: nat)
    requires i < |items|
  {
    items[i].prevHash == Expected(items, i)
  }

  predicate HashOk(s: Scheme, items: seq<ChainItem>, i: nat)
    requires i < |items|
  {
    ComputeHash(s, items[i].record, items[i].prevHash) == Ok(items[i].hash)
  }

  predicate Good(s: Scheme, items: seq<ChainItem>, i: nat)
    requires i < |items|
  {
    LinkOk(items, i) && HashOk(s, items, i)
  }

  predicate Intact(s: Scheme, items: seq<ChainItem>) {
    forall i | 0 <= i < |items| :: Good(s, items, i)
  }

  /** Row `i` is the first that breaks the chain. */
  predicate FirstBreak(s: Scheme, items: seq<ChainItem>, i: nat) {
    i < |items| && !Good(s, items, i) && forall k | 0 <= k < i :: Good(s, items, k)
  }

  /** Row `i` is linked to its predecessor and has a record without canonical text. */
  predicate Blocked(s: Scheme, items: seq<ChainItem>, i: nat) {
    i < |items| && LinkOk(items, i) && s.serialize(items[i].record).TypeError?
  }

  lemma GenesisHex()
    ensures IsHex64(GENESIS_HASH)
  {
    HexDigitAt(GENESIS_HASH);
  }

  lemma ComputedIsHex(s: Scheme, record: Value, prevHash: Text)
    requires Sound(s) && ComputeHash(s, record, prevHash).Ok?
    ensures IsHex64(ComputeHash(s, record, prevHash).value)
  {
  }

  /** The first mismatch, or -1. A TypeError comes only from a record that has no canonical
      text: the walk never passes `computeHash` a malformed previous hash. */
  method VerifyChain(s: Scheme, items: seq<ChainItem>) returns (r: Result<int>)
    requires Sound(s)
    ensures r == Ok(-1) <==> Intact(s, items)
    ensures r.Ok? && r.value != -1 ==> r.value >= 0 && FirstBreak(s, items, r.value) && !Blocked(s, items, r.value)
    ensures r.TypeError? ==> exists i: nat :: FirstBreak(s, items, i) && Blocked(s, items, i)
  {
    var expectedPrev := GENESIS_HASH;
    GenesisHex();
    for i := 0 to |items|
      invariant expectedPrev == Expected(items, i) && IsHex64(expectedPrev)
      invariant forall k | 0 <= k < i :: Good(s, items, k)
    {
      var item := items[i];
      if item.prevHash != expectedPrev {
        assert FirstBreak(s, items, i);
        return Ok(i);
      }
      var recomputed := ComputeHash(s, item.record, item.prevHash);
      if recomputed.TypeError? {
        assert FirstBreak(s, items, i) && Blocked(s, items, i);
        return TypeError;
      }
      if recomputed.value != item.hash {
        assert FirstBreak(s, items, i);
        return Ok(i);
      }
      ComputedIsHex(s, item.record, item.prevHash);
      expectedPrev := item.hash;
    }
    return Ok(-1);
  }

  // ----- The payload determines the previous hash and the record -----

  lemma PayloadUnique(s: Scheme, p: Text, a: Text, q: Text, b: Text)
    requires Sound(s) && IsHex64(p) && IsHex64(q) && Utf8.WellFormed(a) && Utf8.WellFormed(b)
    requires Payload(s, p, a) == Payload(s, q, b)
    ensures p == q && a == b
  {
    PayloadWellFormed(p, a);
    PayloadWellFormed(q, b);
    Cancel(p + [BAR], a, q + [BAR], b);
    Cancel(p, [BAR], q, [BAR]);
  }

  lemma PayloadWellFormed(p: Text, a: Text)
    requires IsHex64(p) && Utf8.WellFormed(a)
    ensures Utf8.WellFormed(p + [BAR] + a)
  {
    HexDigitAt(p);
    Utf8.PlainWellFormed(p + [BAR]);
    Utf8.WellFormedConcat(p + [BAR], a);
  }

  predicate Hashable(s: Scheme, item: ChainItem) {
    IsHex64(item.prevHash) && s.serialize(item.record).Ok?
  }

  /** The bytes hashed for an item. */
  function ItemPayload(s: Scheme, item: ChainItem): Utf8.Bytes
    requires Hashable(s, item)
  {
    Payload(s, item.prevHash, s.serialize(item.record).value)
  }

  lemma ItemPayloadUnique(s: Scheme, x: ChainItem, y: ChainItem)
    requires Sound(s) && Hashable(s, x) && Hashable(s, y) && ItemPayload(s, x) == ItemPayload(s, y)
    ensures x.prevHash == y.prevHash && s.serialize(x.record) == s.serialize(y.record)
  {
    PayloadUnique(s, x.prevHash, s.serialize(x.record).value, y.prevHash, s.serialize(y.record).value);
  }

  /** What the lemmas below assume of the digest, about the given items only: their payloads do
      not collide, and none of them hashes to the genesis constant. */
  ghost predicate Collides(s: Scheme, x: ChainItem, y: ChainItem) {
    && Hashable(s, x) && Hashable(s, y)
    && ItemPayload(s, x) != ItemPayload(s, y)
    && s.digest(ItemPayload(s, x)) == s.digest(ItemPayload(s, y))
  }

  ghost predicate CollisionFree(s: Scheme, items: seq<ChainItem>) {
    && (forall x, y | x in items && y in items :: !Collides(s, x, y))
    && (forall x | x in items && Hashable(s, x) :: s.digest(ItemPayload(s, x)) != GENESIS_HASH)
  }

  lemma CollisionFreeSubset(s: Scheme, some: seq<ChainItem>, all: seq<ChainItem>)
    requires CollisionFree(s, all)
    requires forall x | x in some :: x in all
    ensures CollisionFree(s, some)
  {
  }

  // ----- What the tail commits to -----

  function Tail(items: seq<ChainItem>): Text {
    Expected(items, |items|)
  }

  lemma PrefixIntact(s: Scheme, items: seq<ChainItem>, n: nat)
    requires Intact(s, items) && n <= |items|
    ensures Intact(s, items[..n]) && Tail(items[..n]) == Expected(items, n)
  {
    forall i | 0 <= i < n ensures Good(s, items[..n], i) {
      assert Good(s, items, i);
    }
  }

  lemma DropLast(s: Scheme, items: seq<ChainItem>)
    requires Intact(s, items) && items != []
    ensures Intact(s, items[..|items| - 1]) && Tail(items[..|items| - 1]) == items[|items| - 1].prevHash
  {
    PrefixIntact(s, items, |items| - 1);
    assert Good(s, items, |items| - 1);
  }

  lemma GoodHash(s: Scheme, items: seq<ChainItem>, i: nat)
    requires i < |items| && Good(s, items, i)
    ensures Hashable(s, items[i]) && items[i].hash == s.digest(ItemPayload(s, items[i]))
  {
  }

  /** Appending an item that names the tail and carries its own hash keeps a chain intact. */
  lemma Extend(s: Scheme, items: seq<ChainItem>, x: ChainItem)
    requires Intact(s, items) && x.prevHash == Tail(items)
    requires ComputeHash(s, x.record, x.prevHash) == Ok(x.hash)
    ensures Intact(s, items + [x]) && Tail(items + [x]) == x.hash
  {
    forall i | 0 <= i <= |items| ensures Good(s, items + [x], i) {
      assert i < |items| ==> Good(s, items, i);
    }
  }

  /** Equal in everything the hash covers. */
  predicate Alike(s: Scheme, x: ChainItem, y: ChainItem) {
    x.hash == y.hash && x.prevHash == y.prevHash && s.serialize(x.record) == s.serialize(y.record)
  }

  predicate AllAlike(s: Scheme, a: seq<ChainItem>, b: seq<ChainItem>) {
    |a| == |b| && forall i | 0 <= i < |a| :: Alike(s, a[i], b[i])
  }

  lemma AllAlikeSnoc(s: Scheme, a: seq<ChainItem>, b: seq<ChainItem>, x: ChainItem, y: ChainItem)
    requires AllAlike(s, a, b) && Alike(s, x, y)
    ensures AllAlike(s, a + [x], b + [y])
  {
  }

  lemma EqualLast(s: Scheme, a: seq<ChainItem>, b: seq<ChainItem>)
    requires Sound(s) && Intact(s, a) && Intact(s, b) && Tail(a) == Tail(b)
    requires CollisionFree(s, a + b)
    ensures a == [] <==> b == []
    ensures a != [] ==> Alike(s, a[|a| - 1], b[|b| - 1])
  {
    if a != [] { GoodHash(s, a, |a| - 1); assert a[|a| - 1] in a + b; }
    if b != [] { GoodHash(s, b, |b| - 1); assert b[|b| - 1] in a + b; }
    if a != [] && b != [] {
      assert !Collides(s, a[|a| - 1], b[|b| - 1]);
      ItemPayloadUnique(s, a[|a| - 1], b[|b| - 1]);
    }
  }

  lemma {:induction false} EqualTails(s: Scheme, a: seq<ChainItem>, b: seq<ChainItem>)
    requires Sound(s) && Intact(s, a) && Intact(s, b) && Tail(a) == Tail(b)
    requires CollisionFree(s, a + b)
    ensures AllAlike(s, a, b)
  {
    EqualLast(s, a, b);
    if a != [] {
      var m, n := |a| - 1, |b| - 1;
      DropLast(s, a);
      DropLast(s, b);
      CollisionFreeSubset(s, a[..m] + b[..n], a + b);
      EqualTails(s, a[..m], b[..n]);
      AllAlikeSnoc(s, a[..m], b[..n], a[m], b[n]);
      assert a == a[..m] + [a[m]] && b == b[..n] + [b[n]];
    }
  }

  /** The tail hash commits to the whole history: two accepted chains that end in the same hash
      have the same length and hold records that are equal by value, row by row. */
  lemma TailCommits(h: Digest, a: seq<ChainItem>, b: seq<ChainItem>)
    requires HexDigest(h)
    requires Intact(Canonically(h), a) && Intact(Canonically(h), b) && Tail(a) == Tail(b)
    requires CollisionFree(Canonically(h), a + b)
    requires forall x | x in a + b :: Valid(x.record)
    ensures |a| == |b|
    ensures forall i | 0 <= i < |a| ::
              a[i].hash == b[i].hash && a[i].prevHash == b[i].prevHash && Same(a[i].record, b[i].record)
  {
    var s := Canonically(h);
    CanonicallySound(h);
    EqualTails(s, a, b);
    forall i | 0 <= i < |a|
      ensures a[i].hash == b[i].hash && a[i].prevHash == b[i].prevHash && Same(a[i].record, b[i].record)
    {
      assert Alike(s, a[i], b[i]);
      GoodHash(s, a, i);
      GoodHash(s, b, i);
      assert a[i] in a + b && b[i] in a + b;
      EqualTextSame(a[i].record, b[i].record);
    }
  }

  lemma EqualTextSame(v: Value, w: Value)
    requires Valid(v) && Valid(w) && Canon(v).Ok? && Canon(w) == Canon(v)
    ensures Same(v, w)
  {
    CanonTotal(v);
    CanonTotal(w);
    CanonInjective(v, w);
  }

  /** In an accepted chain no hash occurs twice, and none is the genesis hash; so no two rows
      name the same predecessor. */
  lemma HashesDistinct(s: Scheme, items: seq<ChainItem>, i: nat, j: nat)
    requires Sound(s) && Intact(s, items) && CollisionFree(s, items)
    requires i <= |items| && j <= |items| && Expected(items, i) == Expected(items, j)
    ensures i == j
  {
    PrefixIntact(s, items, i);
    PrefixIntact(s, items, j);
    CollisionFreeSubset(s, items[..i] + items[..j], items);
    EqualTails(s, items[..i], items[..j]);
  }

  // ----- Tampering is found where it happened -----

  /** Rows in front of position `i` stay good when only later rows change. */
  lemma FrontGood(s: Scheme, items: seq<ChainItem>, t: seq<ChainItem>, i: nat)
    requires Intact(s, items) && i <= |items| && i <= |t| && items[..i] == t[..i]
    ensures forall k | 0 <= k < i :: Good(s, t, k)
    ensures Expected(t, i) == Expected(items, i)
  {
    forall k | 0 <= k < i ensures Good(s, t, k) {
      assert t[k] == t[..i][k] == items[k];
      assert k > 0 ==> t[k - 1] == t[..i][k - 1] == items[k - 1];
      assert Good(s, items, k);
    }
    assert i > 0 ==> t[i - 1] == t[..i][i - 1] == items[i - 1];
  }

  /** A changed record. */
  lemma RecordChanged(h: Digest, items: seq<ChainItem>, i: nat, record: Value)
    requires HexDigest(h) && Intact(Canonically(h), items) && i < |items|
    requires Valid(record) && Valid(items[i].record) && !Same(items[i].record, record)
    requires !Collides(Canonically(h), items[i], items[i].(record := record))
    ensures FirstBreak(Canonically(h), items[i := items[i].(record := record)], i)
  {
    var s, forged := Canonically(h), items[i].(record := record);
    var t := items[i := forged];
    CanonicallySound(h);
    FrontGood(s, items, t, i);
    GoodHash(s, items, i);
    if Good(s, t, i) {
      GoodHash(s, t, i);
      ItemPayloadUnique(s, items[i], forged);
      EqualTextSame(items[i].record, record);
    }
  }

  /** A deleted row that was not the last. */
  lemma RowDeleted(s: Scheme, items: seq<ChainItem>, i: nat)
    requires Sound(s) && Intact(s, items) && CollisionFree(s, items) && i + 1 < |items|
    ensures FirstBreak(s, items[..i] + items[i + 1..], i)
  {
    var t := items[..i] + items[i + 1..];
    FrontGood(s, items, t, i);
    assert Good(s, items, i + 1);
    if Expected(items, i) == Expected(items, i + 1) {
      HashesDistinct(s, items, i, i + 1);
    }
  }

  /** Two swapped rows. */
  lemma RowsSwapped(s: Scheme, items: seq<ChainItem>, i: nat, j: nat)
    requires Sound(s) && Intact(s, items) && CollisionFree(s, items) && i < j < |items|
    ensures FirstBreak(s, items[i := items[j]][j := items[i]], i)
  {
    var t := items[i := items[j]][j := items[i]];
    FrontGood(s, items, t, i);
    assert Good(s, items, j);
    if Expected(items, i) == Expected(items, j) {
      HashesDistinct(s, items, i, j);
    }
  }

  /** A forged row put in front of an existing one: found at once, or, when the forger computed
      its hash correctly, at the row it was put in front of. */
  lemma RowInserted(s: Scheme, items: seq<ChainItem>, i: nat, x: ChainItem)
    requires Sound(s) && Intact(s, items) && i < |items| && CollisionFree(s, items + [x])
    ensures var t := items[..i] + [x] + items[i..]; FirstBreak(s, t, if Good(s, t, i) then i + 1 else i)
  {
    var t := items[..i] + [x] + items[i..];
    FrontGood(s, items, t, i);
    if Good(s, t, i) {
      assert t[i] == x && t[i + 1] == items[i];
      assert Good(s, items, i);
      PrefixIntact(s, items, i);
      Extend(s, items[..i], x);
      if x.hash == Expected(items, i) {
        var longer := items[..i] + [x];
        CollisionFreeSubset(s, longer + items[..i], items + [x]);
        EqualTails(s, longer, items[..i]);
      }
    }
  }
}
