/** The two verifiers that read trade rows: the worker's `runForBroker`, which lists breaks,
    and the script's `verifyForBroker`, which counts them. Both are compared with
    `verifyChain` on the same rows. */
module Verifiers {
  import opened Texts
  import opened Canonical
  import opened HashChain

  datatype Reason = PREV_HASH_MISMATCH | HASH_MISMATCH

  /** The broken row, by position. */
  datatype Break = Break(row: nat, reason: Reason, expected: Text, actual: Text)

  /** The verifiers build each row's record from its columns, all of them strings; so every
      record has a canonical text. */
  predicate Readable(s: Scheme, items: seq<ChainItem>) {
    forall i | 0 <= i < |items| :: s.serialize(items[i].record).Ok?
  }

  // ----- What each verifier reports, row by row -----

  function Recomputed(s: Scheme, item: ChainItem): Result<Text> {
    ComputeHash(s, item.record, item.prevHash)
  }

  /** The worker's report on row `i`: the hash is only recomputed when the link is good. */
  function ReportAt(s: Scheme, items: seq<ChainItem>, i: nat): (bs: seq<Break>)
    requires i < |items|
    ensures |bs| <= 1
  {
    if !LinkOk(items, i) then [Break(i, PREV_HASH_MISMATCH, Expected(items, i), items[i].prevHash)]
    else if Recomputed(s, items[i]).Ok? && !HashOk(s, items, i) then
      [Break(i, HASH_MISMATCH, Recomputed(s, items[i]).value, items[i].hash)]
    else []
  }

  function Report(s: Scheme, items: seq<ChainItem>, n: nat): seq<Break>
    requires n <= |items|
  {
    if n == 0 then [] else Report(s, items, n - 1) + ReportAt(s, items, n - 1)
  }

  function Bit(b: bool): nat {
    if b then 1 else 0
  }

  /** The script's count over the first `n` rows. */
  function Count(s: Scheme, items: seq<ChainItem>, n: nat): nat
    requires n <= |items|
  {
    if n == 0 then 0
    else Count(s, items, n - 1) + Bit(!LinkOk(items, n - 1)) + Bit(!HashOk(s, items, n - 1))
  }

  /** How many of the first `n` rows fail both checks. */
  function BothBad(s: Scheme, items: seq<ChainItem>, n: nat): nat
    requires n <= |items|
  {
    if n == 0 then 0
    else BothBad(s, items, n - 1) + Bit(!LinkOk(items, n - 1) && !HashOk(s, items, n - 1))
  }

  // ----- The two walks -----

  /** Throws exactly when some row is linked to a predecessor whose hash is malformed. */
  method RunForBroker(s: Scheme, items: seq<ChainItem>) returns (r: Result<seq<Break>>)
    requires Readable(s, items)
    ensures r.TypeError? <==> exists i | 0 <= i < |items| :: LinkOk(items, i) && !IsHex64(items[i].prevHash)
    ensures r.Ok? ==> r.value == Report(s, items, |items|)
  {
    var breaks: seq<Break> := [];
    var expectedPrev := GENESIS_HASH;
    for i := 0 to |items|
      invariant expectedPrev == Expected(items, i)
      invariant breaks == Report(s, items, i)
      invariant forall k | 0 <= k < i :: LinkOk(items, k) ==> IsHex64(items[k].prevHash)
    {
      var row := items[i];
      if row.prevHash != expectedPrev {
        assert ReportAt(s, items, i) == [Break(i, PREV_HASH_MISMATCH, expectedPrev, row.prevHash)];
        breaks := breaks + [Break(i, PREV_HASH_MISMATCH, expectedPrev, row.prevHash)];
        expectedPrev := row.hash;
        continue;
      }
      var recomputed := ComputeHash(s, row.record, row.prevHash);
      if recomputed.TypeError? {
        assert LinkOk(items, i) && !IsHex64(items[i].prevHash);
        return TypeError;
      }
      assert Recomputed(s, items[i]) == recomputed && LinkOk(items, i);
      if recomputed.value != row.hash {
        assert ReportAt(s, items, i) == [Break(i, HASH_MISMATCH, recomputed.value, row.hash)];
        breaks := breaks + [Break(i, HASH_MISMATCH, recomputed.value, row.hash)];
      }
      expectedPrev := row.hash;
    }
    return Ok(breaks);
  }

  /** Throws exactly when some row carries a malformed previous hash. */
  method VerifyForBroker(s: Scheme, items: seq<ChainItem>) returns (r: Result<nat>)
    requires Readable(s, items)
    ensures r.TypeError? <==> exists i | 0 <= i < |items| :: !IsHex64(items[i].prevHash)
    ensures r.Ok? ==> r.value == Count(s, items, |items|)
  {
    var breaks: nat := 0;
    var expectedPrev := GENESIS_HASH;
    for i := 0 to |items|
      invariant expectedPrev == Expected(items, i)
      invariant breaks == Count(s, items, i)
      invariant forall k | 0 <= k < i :: IsHex64(items[k].prevHash)
    {
      var row := items[i];
      if row.prevHash != expectedPrev {
        breaks := breaks + 1;
      }
      var recomputed := ComputeHash(s, row.record, row.prevHash);
      if recomputed.TypeError? {
        assert !IsHex64(items[i].prevHash);
        return TypeError;
      }
      if recomputed.value != row.hash {
        breaks := breaks + 1;
      }
      expectedPrev := row.hash;
    }
    return Ok(breaks);
  }

  // ----- What the reports say -----

  /** What row `k` should name as its predecessor's hash: 64 code units 0x30 for the first. */
  function Before(items: seq<ChainItem>, k: nat): Text
    requires k < |items|
  {
    if k == 0 then Repeat(0x30, 64) else items[k - 1].hash
  }

  /** The digest of the previous hash, a bar and the row's text. */
  function DigestOf(s: Scheme, item: ChainItem): Text
    requires s.serialize(item.record).Ok?
  {
    s.digest(s.encode(item.prevHash + [0x7C] + s.serialize(item.record).value))
  }

  /** A break is of the first kind if the row names another predecessor, and of the second if it names
      the right one and its hash is not the digest. */
  predicate Says(s: Scheme, items: seq<ChainItem>, b: Break)
    requires Readable(s, items) && b.row < |items|
  {
    var item := items[b.row];
    match b.reason
    case PREV_HASH_MISMATCH =>
      item.prevHash != Before(items, b.row) && b.expected == Before(items, b.row) && b.actual == item.prevHash
    case HASH_MISMATCH =>
      item.prevHash == Before(items, b.row) && b.expected == DigestOf(s, item) && b.actual == item.hash
      && b.expected != b.actual
  }

  predicate WrongLink(items: seq<ChainItem>, k: nat)
    requires k < |items|
  {
    items[k].prevHash != Before(items, k)
  }

  predicate WrongHash(s: Scheme, items: seq<ChainItem>, k: nat)
    requires Readable(s, items) && k < |items|
  {
    IsHex64(items[k].prevHash) ==> items[k].hash != DigestOf(s, items[k])
  }

  lemma SameChecks(s: Scheme, items: seq<ChainItem>, k: nat)
    requires Readable(s, items) && k < |items|
    ensures LinkOk(items, k) <==> !WrongLink(items, k)
    ensures HashOk(s, items, k) <==> !WrongHash(s, items, k)
    ensures IsHex64(items[k].prevHash) ==>
              ComputeHash(s, items[k].record, items[k].prevHash) == Ok(DigestOf(s, items[k]))
  {
    assert s.serialize(items[k].record).Ok?;
    assert GENESIS_HASH == Repeat(0x30, 64);
  }

  /** The walk that stops at the first mismatch accepts exactly the chains whose every row names its
      predecessor's hash and carries its own digest. */
  lemma IntactExactly(s: Scheme, items: seq<ChainItem>)
    requires Readable(s, items)
    ensures Intact(s, items) <==> forall k: nat | k < |items| :: !WrongLink(items, k) && !WrongHash(s, items, k)
  {
    forall k: nat | k < |items| ensures Good(s, items, k) <==> !WrongLink(items, k) && !WrongHash(s, items, k) {
      SameChecks(s, items, k);
    }
  }

  /** The walk does not throw at row `k`. */
  predicate Passable(items: seq<ChainItem>, k: nat)
    requires k < |items|
  {
    WrongLink(items, k) || IsHex64(items[k].prevHash)
  }

  lemma RowReported(s: Scheme, items: seq<ChainItem>, k: nat)
    requires Readable(s, items) && k < |items| && Passable(items, k)
    ensures forall b | b in ReportAt(s, items, k) :: b.row == k && Says(s, items, b)
    ensures ReportAt(s, items, k) != [] <==> WrongLink(items, k) || WrongHash(s, items, k)
  {
    SameChecks(s, items, k);
  }

  predicate HasRow(breaks: seq<Break>, k: nat) {
    exists b | b in breaks :: b.row == k
  }

  /** Breaks of earlier rows in row order, and one at most of row `n`. */
  lemma RowsAppended(before: seq<Break>, here: seq<Break>, n: nat)
    requires |here| <= 1 && (forall b | b in before :: b.row < n) && (forall b | b in here :: b.row == n)
    requires forall i, j | 0 <= i < j < |before| :: before[i].row < before[j].row
    ensures forall i, j | 0 <= i < j < |before + here| :: (before + here)[i].row < (before + here)[j].row
    ensures forall k: nat :: HasRow(before + here, k) <==> if k == n then here != [] else HasRow(before, k)
  {
    var all := before + here;
    forall k: nat ensures HasRow(all, k) <==> if k == n then here != [] else HasRow(before, k) {
      if k == n && here != [] { assert here[0] in here && here[0] in all; }
      if b :| b in before && b.row == k { assert b in all; }
    }
    forall i, j | 0 <= i < j < |all| ensures all[i].row < all[j].row {
      assert all[i] in before;
      if j == |before| { assert here[0] in here; }
    }
  }

  /** One true statement for every row that is wrong among the first `n`, and no other, in row order. */
  predicate Reports(s: Scheme, items: seq<ChainItem>, breaks: seq<Break>, n: nat)
    requires Readable(s, items) && n <= |items|
  {
    && (forall b | b in breaks :: b.row < n && Says(s, items, b))
    && (forall i, j | 0 <= i < j < |breaks| :: breaks[i].row < breaks[j].row)
    && forall k: nat | k < n :: HasRow(breaks, k) <==> WrongLink(items, k) || WrongHash(s, items, k)
  }

  lemma ReportGrows(s: Scheme, items: seq<ChainItem>, before: seq<Break>, here: seq<Break>, all: seq<Break>, n: nat)
    requires Readable(s, items) && n < |items| && Reports(s, items, before, n)
    requires |here| <= 1 && forall b | b in here :: b.row == n && Says(s, items, b)
    requires here != [] <==> WrongLink(items, n) || WrongHash(s, items, n)
    requires all == before + here
    ensures Reports(s, items, all, n + 1)
  {
    RowsAppended(before, here, n);
    forall b | b in all ensures b.row < n + 1 && Says(s, items, b) {
      assert b in before || b in here;
    }
  }

  lemma ReportStep(s: Scheme, items: seq<ChainItem>, before: seq<Break>, all: seq<Break>, m: nat, n: nat)
    requires Readable(s, items) && m < |items| && n == m + 1 && Passable(items, m) && Reports(s, items, before, m)
    requires all == before + ReportAt(s, items, m)
    ensures Reports(s, items, all, n)
  {
    RowReported(s, items, m);
    ReportGrows(s, items, before, ReportAt(s, items, m), all, m);
  }

  lemma ReportUnfolds(s: Scheme, items: seq<ChainItem>, m: nat, n: nat)
    requires m < |items| && n == m + 1
    ensures Report(s, items, n) == Report(s, items, m) + ReportAt(s, items, m)
  {
  }

  /** The worker's report, when it does not throw: one true statement for every row that is wrong, and
      no other, in row order. */
  lemma {:induction false} ReportSays(s: Scheme, items: seq<ChainItem>, n: nat, breaks: seq<Break>)
    requires Readable(s, items) && n <= |items| && breaks == Report(s, items, n)
    requires forall k: nat | k < n :: Passable(items, k)
    ensures Reports(s, items, breaks, n)
  {
    if n > 0 {
      var before := Report(s, items, n - 1);
      ReportSays(s, items, n - 1, before);
      ReportUnfolds(s, items, n - 1, n);
      ReportStep(s, items, before, breaks, n - 1, n);
    }
  }

  function WrongLinks(items: seq<ChainItem>, n: nat): set<nat>
    requires n <= |items|
  {
    set k: nat | k < n && WrongLink(items, k)
  }

  function WrongHashes(s: Scheme, items: seq<ChainItem>, n: nat): set<nat>
    requires Readable(s, items) && n <= |items|
  {
    set k: nat | k < n && WrongHash(s, items, k)
  }

  lemma OneMoreLink(items: seq<ChainItem>, n: nat)
    requires n < |items|
    ensures |WrongLinks(items, n + 1)| == |WrongLinks(items, n)| + Bit(WrongLink(items, n))
  {
    var a := WrongLinks(items, n);
    assert WrongLinks(items, n + 1) == if WrongLink(items, n) then a + {n} else a;
  }

  lemma OneMoreHash(s: Scheme, items: seq<ChainItem>, n: nat)
    requires Readable(s, items) && n < |items|
    ensures |WrongHashes(s, items, n + 1)| == |WrongHashes(s, items, n)| + Bit(WrongHash(s, items, n))
  {
    var a := WrongHashes(s, items, n);
    assert WrongHashes(s, items, n + 1) == if WrongHash(s, items, n) then a + {n} else a;
  }

  lemma CountStep(s: Scheme, items: seq<ChainItem>, n: nat)
    requires Readable(s, items) && n < |items|
    ensures Count(s, items, n + 1) == Count(s, items, n) + Bit(WrongLink(items, n)) + Bit(WrongHash(s, items, n))
  {
    SameChecks(s, items, n);
  }

  /** The script's count: the wrong links and the wrong hashes. */
  lemma {:induction false} CountSays(s: Scheme, items: seq<ChainItem>, n: nat)
    requires Readable(s, items) && n <= |items|
    ensures Count(s, items, n) == |WrongLinks(items, n)| + |WrongHashes(s, items, n)|
  {
    if n == 0 {
      assert WrongLinks(items, 0) == {} && WrongHashes(s, items, 0) == {};
    } else {
      CountSays(s, items, n - 1);
      CountStep(s, items, n - 1);
      OneMoreLink(items, n - 1);
      OneMoreHash(s, items, n - 1);
    }
  }

  // ----- Agreement -----

  /** Hashes of the right shape everywhere. */
  predicate HexItems(items: seq<ChainItem>) {
    forall i | 0 <= i < |items| :: IsHex64(items[i].prevHash) && IsHex64(items[i].hash)
  }

  /** On such rows the worker reports a row exactly when one of the script's checks fails. */
  lemma ReportAtClean(s: Scheme, items: seq<ChainItem>, i: nat)
    requires i < |items| && Readable(s, items) && HexItems(items)
    ensures |ReportAt(s, items, i)| == Bit(!Good(s, items, i))
  {
    assert Recomputed(s, items[i]).Ok?;
  }

  predicate Clean(s: Scheme, items: seq<ChainItem>, n: nat) {
    n <= |items| && forall i | 0 <= i < n :: Good(s, items, i)
  }

  lemma CleanStep(s: Scheme, items: seq<ChainItem>, n: nat)
    requires n < |items|
    ensures Clean(s, items, n + 1) <==> Clean(s, items, n) && Good(s, items, n)
  {
  }

  lemma {:induction false} ReportClean(s: Scheme, items: seq<ChainItem>, n: nat)
    requires n <= |items| && Readable(s, items) && HexItems(items)
    ensures Report(s, items, n) == [] <==> Clean(s, items, n)
    ensures |Report(s, items, n)| <= n
  {
    if n > 0 {
      var before, here := Report(s, items, n - 1), ReportAt(s, items, n - 1);
      ReportClean(s, items, n - 1);
      ReportAtClean(s, items, n - 1);
      CleanStep(s, items, n - 1);
      assert Report(s, items, n) == before + here && |before + here| == |before| + |here|;
    }
  }

  lemma {:induction false} CountSplits(s: Scheme, items: seq<ChainItem>, n: nat)
    requires n <= |items| && Readable(s, items) && HexItems(items)
    ensures Count(s, items, n) == |Report(s, items, n)| + BothBad(s, items, n)
    ensures BothBad(s, items, n) <= |Report(s, items, n)|
  {
    if n > 0 {
      CountSplits(s, items, n - 1);
      ReportAtClean(s, items, n - 1);
    }
  }

  lemma {:induction false} ReportPrefix(s: Scheme, items: seq<ChainItem>, m: nat, n: nat)
    requires m <= n <= |items|
    ensures Report(s, items, m) <= Report(s, items, n)
  {
    if m < n {
      ReportPrefix(s, items, m, n - 1);
    }
  }

  /** All three are clean or none is; the worker reports at most one break per row; the script
      counts one more for each row that fails both checks. */
  lemma VerifiersAgree(s: Scheme, items: seq<ChainItem>)
    requires Readable(s, items) && HexItems(items)
    ensures Report(s, items, |items|) == [] <==> Intact(s, items)
    ensures Count(s, items, |items|) == 0 <==> Intact(s, items)
    ensures |Report(s, items, |items|)| <= |items|
    ensures Count(s, items, |items|) == |Report(s, items, |items|)| + BothBad(s, items, |items|)
  {
    ReportClean(s, items, |items|);
    CountSplits(s, items, |items|);
  }

  lemma FirstReported(s: Scheme, items: seq<ChainItem>, i: nat)
    requires Readable(s, items) && HexItems(items) && FirstBreak(s, items, i)
    ensures Report(s, items, |items|) != [] && Report(s, items, |items|)[0].row == i
  {
    ReportClean(s, items, i);
    ReportAtClean(s, items, i);
    ReportPrefix(s, items, i + 1, |items|);
    assert Report(s, items, i + 1) == ReportAt(s, items, i);
  }

  /** Where `verifyChain` stops is the worker's first break and the script's first count. */
  lemma FirstBreakAgrees(s: Scheme, items: seq<ChainItem>, i: nat)
    requires Readable(s, items) && HexItems(items) && FirstBreak(s, items, i)
    ensures Report(s, items, |items|) != [] && Report(s, items, |items|)[0].row == i
    ensures Count(s, items, i) == 0 && Count(s, items, i + 1) > 0
  {
    FirstReported(s, items, i);
    ReportClean(s, items, i);
    CountSplits(s, items, i);
  }
}
