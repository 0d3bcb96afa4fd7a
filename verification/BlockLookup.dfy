// Block height by timestamp: nt-be/src/app_state.rs.  A cache in front of a database
// shortcut in front of a binary search over a chain that keeps growing while the search
// awaits its probes.
module BlockLookup {
  import opened Wrappers

  // Block timestamps by height; skipped heights are absent.
  type Chain = map<nat, nat>

  datatype Row = Row(height: nat, timestamp: int)

  datatype LookupError = OutOfRange | InTheFuture | MissingBlock(height: nat)
  datatype Result<T> = Ok(value: T) | Err(error: LookupError)

  const GENESIS: nat := 129265430
  const I64_LIMIT: nat := 0x8000_0000_0000_0000

  // `as i64` on a u64
  function AsI64(x: nat): int
  {
    if x < I64_LIMIT then x else x - 2 * I64_LIMIT
  }

  ghost predicate ChainValid(chain: Chain, head: nat) {
    && head in chain
    && (forall h <- chain :: h <= head && chain[h] < I64_LIMIT)
    && (forall g, h :: g in chain && h in chain && g < h ==> chain[g] < chain[h])
  }

  // Blocks are only ever added above the head.
  ghost predicate Extends(older: Chain, oldHead: nat, newer: Chain, newHead: nat) {
    && oldHead <= newHead
    && (forall h <- older :: h in newer && newer[h] == older[h])
    && (forall h <- newer :: h in older || h > oldHead)
  }

  // The answer: the least existing block from GENESIS on that is not before `target`.
  predicate IsLeast(chain: Chain, target: int, h: nat) {
    && h in chain && h >= 129265430 && chain[h] >= target
    && forall g <- chain :: 129265430 <= g < h ==> chain[g] < target
  }

  lemma LeastUnique(chain: Chain, target: int, g: nat, h: nat)
    requires IsLeast(chain, target, g) && IsLeast(chain, target, h)
    ensures g == h
  {
  }

  lemma LeastStable(older: Chain, oldHead: nat, newer: Chain, newHead: nat, target: int, h: nat)
    requires ChainValid(older, oldHead) && Extends(older, oldHead, newer, newHead)
    requires IsLeast(older, target, h)
    ensures IsLeast(newer, target, h)
  {
    forall g <- newer | GENESIS <= g < h ensures newer[g] < target {
      assert g in older;
    }
  }

  // The answer of a lookup that found the chain ending before GENESIS: its head at that time.
  predicate IsEarly(chain: Chain, target: int, h: nat) {
    h in chain && h < 129265430 && chain[h] >= target
  }

  // `early`: lookups may have been served before the chain reached GENESIS.
  predicate IsAnswer(chain: Chain, target: int, h: nat, early: bool) {
    IsLeast(chain, target, h) || (early && IsEarly(chain, target, h))
  }

  lemma AnswerStable(older: Chain, oldHead: nat, newer: Chain, newHead: nat, target: int, h: nat, early: bool)
    requires ChainValid(older, oldHead) && Extends(older, oldHead, newer, newHead)
    requires IsAnswer(older, target, h, early)
    ensures IsAnswer(newer, target, h, early)
  {
    if IsLeast(older, target, h) {
      LeastStable(older, oldHead, newer, newHead, target, h);
    }
  }

  // An early answer is right for no chain that has reached GENESIS, although the cache keeps it.
  lemma EarlyAnswerGoesStale(chain: Chain, head: nat, target: int, h: nat) returns (g: nat)
    requires ChainValid(chain, head) && head >= GENESIS && IsEarly(chain, target, h)
    ensures IsLeast(chain, target, g) && g != h
  {
    g := LeastExists(chain, target, head);
  }

  lemma ExtendsTransitive(a: Chain, aHead: nat, b: Chain, bHead: nat, c: Chain, cHead: nat)
    requires Extends(a, aHead, b, bHead) && Extends(b, bHead, c, cHead)
    ensures Extends(a, aHead, c, cHead)
  {
  }

  // An answer exists as soon as the head is not before the target.
  lemma {:induction false} LeastExists(chain: Chain, target: int, h: nat) returns (g: nat)
    requires h in chain && h >= GENESIS && chain[h] >= target
    ensures IsLeast(chain, target, g)
    decreases h
  {
    if exists k :: k in chain && GENESIS <= k < h && chain[k] >= target {
      var k :| k in chain && GENESIS <= k < h && chain[k] >= target;
      g := LeastExists(chain, target, k);
    } else {
      g := h;
    }
  }

  // The database shortcut: a block at exactly the target is the answer.
  lemma ExactIsLeast(chain: Chain, head: nat, h: nat)
    requires ChainValid(chain, head) && h in chain && h >= GENESIS
    ensures IsLeast(chain, chain[h], h)
  {
  }

  // Rows with one timestamp name one block.
  lemma RowsAgree(chain: Chain, head: nat, rows: seq<Row>, target: int, found: Row)
    requires ChainValid(chain, head) && found in rows && found.timestamp == target
    requires forall r <- rows :: r.height in chain && chain[r.height] == r.timestamp
    ensures forall r <- rows :: r.timestamp == target ==> r.height == found.height
  {
  }

  // ----- Number of probes -----

  function Pow2(n: nat): nat { if n == 0 then 1 else 2 * Pow2(n - 1) }

  // floor(log2(n)) + 1, and 0 for 0
  function Bits(n: nat): nat { if n == 0 then 0 else 1 + Bits(n / 2) }

  lemma {:induction false} BitsIsLog(n: nat)
    requires n > 0
    ensures Pow2(Bits(n) - 1) <= n < Pow2(Bits(n))
  {
    if n > 1 { BitsIsLog(n / 2); }
  }

  lemma {:induction false} BitsMonotone(m: nat, n: nat)
    requires m <= n
    ensures Bits(m) <= Bits(n)
  {
    if m > 0 { BitsMonotone(m / 2, n / 2); }
  }

  // ----- The search range -----

  // Blocks before `left` are too early; `result` is the least block after `right` that is
  // late enough, or the head while nothing has been ruled out above.
  ghost predicate InRange(chain: Chain, head: nat, target: int, left: nat, right: nat, result: nat) {
    && GENESIS <= left <= right + 1 && GENESIS <= head && right <= head
    && result in chain && chain[result] >= target
    && (result == right + 1 || result == right == head)
    && forall g <- chain :: GENESIS <= g < left ==> chain[g] < target
  }

  lemma RangeDone(chain: Chain, head: nat, target: int, left: nat, right: nat, result: nat)
    requires ChainValid(chain, head) && InRange(chain, head, target, left, right, result) && left > right
    ensures IsLeast(chain, target, result)
  {
  }

  lemma RangeStep(chain: Chain, head: nat, target: int, left: nat, right: nat, result: nat, mid: nat)
    requires ChainValid(chain, head) && InRange(chain, head, target, left, right, result)
    requires left <= mid <= right && mid in chain
    ensures chain[mid] < target ==> InRange(chain, head, target, mid + 1, right, result)
    ensures chain[mid] > target ==> mid > 0 && InRange(chain, head, target, left, mid - 1, mid)
    ensures chain[mid] == target ==> IsLeast(chain, target, mid)
  {
  }

  // Growth during the search changes nothing at or below the head it started from.
  lemma ProbeIsStable(older: Chain, oldHead: nat, newer: Chain, newHead: nat, mid: nat)
    requires ChainValid(older, oldHead) && Extends(older, oldHead, newer, newHead) && mid <= oldHead && mid in newer
    ensures mid in older && older[mid] == newer[mid] && AsI64(newer[mid]) == older[mid]
  {
  }

  // Halving spends at least one bit of the remaining size per probe.
  lemma HalvingBits(left: nat, right: nat)
    requires left <= right
    ensures var mid := left + (right - left) / 2;
            && 1 + Bits(right - mid) <= Bits(right + 1 - left)
            && 1 + Bits(mid - left) <= Bits(right + 1 - left)
  {
    var mid := left + (right - left) / 2;
    BitsMonotone(right - mid, (right + 1 - left) / 2);
    BitsMonotone(mid - left, (right + 1 - left) / 2);
  }

  // What a search promises about the chain its first request saw.
  ghost predicate Outcome(chain: Chain, head: nat, target: int, r: Result<nat>)
    requires head in chain
  {
    match r
    case Ok(h) => target <= chain[head] && if head >= GENESIS then IsLeast(chain, target, h) else h == head
    case Err(MissingBlock(h)) => target <= chain[head] && GENESIS <= h <= head && h !in chain
    case Err(InTheFuture) => target > chain[head]
    case Err(OutOfRange) => false
  }

  lemma OutcomeStable(older: Chain, oldHead: nat, newer: Chain, newHead: nat, target: int, r: Result<nat>)
    requires ChainValid(older, oldHead) && Extends(older, oldHead, newer, newHead) && Outcome(older, oldHead, target, r)
    ensures r.Ok? && oldHead >= GENESIS ==> IsLeast(newer, target, r.value)
    ensures r.Ok? && oldHead < GENESIS ==> r.value == oldHead && IsEarly(newer, target, oldHead)
    ensures r.Err? && r.error.MissingBlock? ==> r.error.height !in newer
  {
    if r.Ok? && oldHead >= GENESIS {
      LeastStable(older, oldHead, newer, newHead, target, r.value);
    }
  }

  // The whole loop state; a chain that ends before GENESIS is never searched.
  ghost predicate Searching(chain: Chain, head: nat, target: int, left: int, right: int, result: nat, probes: nat) {
    if head < GENESIS then
      left == GENESIS && right == result == head && probes == 0
    else
      && 0 <= left && 0 <= right
      && InRange(chain, head, target, left, right, result)
      && probes + Bits(right + 1 - left) <= Bits(head - GENESIS + 1)
  }

  lemma SearchingBounds(chain: Chain, head: nat, target: int, left: int, right: int, result: nat, probes: nat, mid: nat)
    requires Searching(chain, head, target, left, right, result, probes)
    requires left <= right && mid == left + (right - left) / 2
    ensures 0 < mid <= head && GENESIS <= head && GENESIS <= mid && probes + 1 <= Bits(head - GENESIS + 1)
  {
    HalvingBits(left, right);
  }

  lemma SearchingStep(chain: Chain, head: nat, target: int, left: int, right: int, result: nat, probes: nat, mid: nat)
    requires ChainValid(chain, head) && Searching(chain, head, target, left, right, result, probes)
    requires left <= right && mid == left + (right - left) / 2
    ensures 0 < mid <= head && head >= GENESIS && GENESIS <= mid && probes + 1 <= Bits(head - GENESIS + 1)
    ensures mid in chain && chain[mid] < target ==> Searching(chain, head, target, mid + 1, right, result, probes + 1)
    ensures mid in chain && chain[mid] > target ==> Searching(chain, head, target, left, mid - 1, mid, probes + 1)
    ensures mid in chain && chain[mid] == target ==> IsLeast(chain, target, mid)
  {
    HalvingBits(left, right);
    if mid in chain {
      RangeStep(chain, head, target, left, right, result, mid);
    }
  }

  // ----- The service -----

  class AppState {
    var chain: Chain
    var head: nat
    var rows: seq<Row>
    var cache: map<int, nat>
    const early: bool

    // Database rows copy chain facts from GENESIS on; cached heights are right, or early.
    ghost predicate Valid()
      reads this
    {
      && ChainValid(chain, head)
      && (forall r <- rows :: r.height in chain && chain[r.height] == r.timestamp && r.height >= GENESIS)
      && (forall t <- cache :: IsAnswer(chain, t, cache[t], early))
      && (early || head >= GENESIS)
    }

    constructor (height: nat, timestamp: nat)
      requires timestamp < I64_LIMIT
      ensures Valid() && chain == map[height := timestamp] && head == height && rows == [] && cache == map[]
      ensures early <==> height < GENESIS
    {
      chain, head, rows, cache := map[height := timestamp], height, [], map[];
      early := height < GENESIS;
    }

    method GrowChain(height: nat, timestamp: nat)
      requires Valid() && height > head && chain[head] < timestamp < I64_LIMIT
      modifies this
      ensures Valid() && Extends(old(chain), old(head), chain, head)
      ensures chain == old(chain)[height := timestamp] && head == height && rows == old(rows) && cache == old(cache)
    {
      ghost var before, top := chain, head;
      chain, head := chain[height := timestamp], height;
      forall t <- cache ensures IsAnswer(chain, t, cache[t], early) {
        AnswerStable(before, top, chain, head, t, cache[t], early);
      }
    }

    method InsertRow(height: nat)
      requires Valid() && height in chain && height >= GENESIS
      modifies this`rows
      ensures Valid() && rows == old(rows) + [Row(height, chain[height])]
    {
      rows := rows + [Row(height, chain[height])];
    }

    // Everything that can happen while a lookup awaits: blocks and rows arrive, cache
    // entries expire, and other lookups store answers of their own.
    method Await()
      requires Valid()
      modifies this
      ensures Valid() && Extends(old(chain), old(head), chain, head)
      ensures forall row <- old(rows) :: row in rows
    {
      var events: int := *;
      for i := 0 to if events < 0 then 0 else events
        invariant Valid() && Extends(old(chain), old(head), chain, head)
        invariant forall row <- old(rows) :: row in rows
      {
        var height: nat, timestamp: nat, target: int := *, *, *;
        if {
          case height > head && chain[head] < timestamp < I64_LIMIT => GrowChain(height, timestamp);
          case height in chain && height >= GENESIS => InsertRow(height);
          case target in cache => cache := cache - {target};
          case IsAnswer(chain, target, height, early) => cache := cache[target := height];
          case true =>
        }
      }
    }

    method QueryRow(target: int) returns (row: Option<Row>)
      ensures row.Some? ==> row.value in rows && row.value.timestamp == target
      ensures row.None? ==> forall r <- rows :: r.timestamp != target
    {
      for i := 0 to |rows|
        invariant forall j :: 0 <= j < i ==> rows[j].timestamp != target
      {
        if rows[i].timestamp == target { return Some(rows[i]); }
      }
      return None;
    }

    // `Chain::block().at(..)`: the timestamp at a height, None for a skipped one.
    method Probe(height: nat, ghost first: Chain, ghost firstHead: nat) returns (timestamp: Option<int>)
      requires Valid() && ChainValid(first, firstHead) && Extends(first, firstHead, chain, head) && height <= firstHead
      modifies this
      ensures Valid() && Extends(first, firstHead, chain, head)
      ensures timestamp == if height in first then Some(first[height]) else None
    {
      ghost var before, top := chain, head;
      Await();
      ExtendsTransitive(first, firstHead, before, top, chain, head);
      if height in chain {
        ProbeIsStable(first, firstHead, chain, head, height);
        return Some(AsI64(chain[height]));
      }
      return None;
    }

    // `probes` counts the block fetches after the first; `first` and `firstHead` are the
    // chain as it was when the latest block was fetched.
    method BinarySearchBlockByTimestamp(target: int)
      returns (r: Result<nat>, probes: nat, ghost first: Chain, ghost firstHead: nat)
      requires Valid()
      modifies this
      ensures Valid() && ChainValid(first, firstHead)
      ensures Extends(old(chain), old(head), first, firstHead) && Extends(first, firstHead, chain, head)
      ensures Outcome(first, firstHead, target, r)
      ensures probes <= if firstHead >= GENESIS then Bits(firstHead - GENESIS + 1) else 0
    {
      probes := 0;
      Await();
      first, firstHead := chain, head;
      var left: int := GENESIS;
      var right: int := head;
      var result: nat := head;
      if target > AsI64(chain[head]) {
        return Err(InTheFuture), probes, first, firstHead;
      }
      r, probes := SearchRange(target, left, right, result, first, firstHead);
    }

    // The loop of the search.
    method SearchRange(target: int, from: int, to: int, latest: nat, ghost first: Chain, ghost firstHead: nat)
      returns (r: Result<nat>, probes: nat)
      requires Valid() && ChainValid(first, firstHead) && Extends(first, firstHead, chain, head)
      requires from == GENESIS && to == latest == firstHead && target <= first[firstHead]
      modifies this
      ensures Valid() && Extends(first, firstHead, chain, head)
      ensures Outcome(first, firstHead, target, r)
      ensures probes <= if firstHead >= GENESIS then Bits(firstHead - GENESIS + 1) else 0
    {
      probes := 0;
      var left: int, right: int, result: nat := from, to, latest;
      while left <= right
        invariant Valid() && Extends(first, firstHead, chain, head)
        invariant Searching(first, firstHead, target, left, right, result, probes)
        decreases right + 1 - left
      {
        var mid := left + (right - left) / 2;
        SearchingBounds(first, firstHead, target, left, right, result, probes, mid);
        var timestamp := Probe(mid, first, firstHead);
        probes := probes + 1;
        if timestamp.None? {
          return Err(MissingBlock(mid)), probes;
        }
        var found;
        left, right, result, found :=
          Narrow(target, left, right, result, mid, timestamp.value, first, firstHead, probes - 1);
        if found { return Ok(mid), probes; }
      }
      if firstHead >= GENESIS {
        RangeDone(first, firstHead, target, left, right, result);
      }
      return Ok(result), probes;
    }

    // The comparison in the loop: before, after or at the target.
    static method Narrow(target: int, left: int, right: int, result: nat, mid: nat, timestamp: int,
                         ghost chain: Chain, ghost head: nat, ghost probes: nat)
      returns (l: int, r: int, best: nat, found: bool)
      requires ChainValid(chain, head) && Searching(chain, head, target, left, right, result, probes)
      requires left <= right && mid == left + (right - left) / 2 && mid in chain && timestamp == chain[mid]
      ensures found ==> head >= GENESIS && IsLeast(chain, target, mid)
      ensures !found ==> Searching(chain, head, target, l, r, best, probes + 1) && r - l < right - left
    {
      SearchingStep(chain, head, target, left, right, result, probes, mid);
      l, r, best, found := left, right, result, false;
      if timestamp < target {
        l := mid + 1;
      } else if timestamp > target {
        best := mid;
        if mid == 0 {
          assert false; // no height below the range is ever probed
        }
        r := mid - 1;
      } else {
        found := true;
      }
    }

    // What runs on a cache miss: database row first, then the search.
    method FetchBlockHeight(target: int) returns (r: Result<nat>)
      requires Valid()
      modifies this
      ensures Valid() && Extends(old(chain), old(head), chain, head)
      ensures r.Ok? ==> IsLeast(chain, target, r.value) || (old(head) <= r.value && IsEarly(chain, target, r.value))
      ensures r.Err? && r.error == InTheFuture ==> target > old(chain[head])
      ensures r.Err? && r.error.MissingBlock? ==> GENESIS <= r.error.height <= head && r.error.height !in chain
      ensures r != Err(OutOfRange)
      ensures forall row <- old(rows) :: row.timestamp == target ==> r == Ok(row.height)
    {
      Await();
      var row := QueryRow(target);
      if row.Some? {
        RowsAgree(chain, head, rows, target, row.value);
        ExactIsLeast(chain, head, row.value.height);
        return Ok(row.value.height);
      }
      ghost var before, top := chain, head;
      ExtendsTransitive(old(chain), old(head), before, top, before, top);
      var probes;
      ghost var first, firstHead;
      r, probes, first, firstHead := BinarySearchBlockByTimestamp(target);
      OutcomeStable(first, firstHead, chain, head, target, r);
      ExtendsTransitive(before, top, first, firstHead, chain, head);
      ExtendsTransitive(old(chain), old(head), before, top, chain, head);
    }

    // `target` is None when the date does not fit 64-bit nanoseconds.
    method FindBlockHeight(target: Option<int>) returns (r: Result<nat>)
      requires Valid()
      modifies this
      ensures Valid() && Extends(old(chain), old(head), chain, head)
      ensures r == Err(OutOfRange) <==> target.None?
      ensures r.Ok? ==> target.value in cache && cache[target.value] == r.value
      ensures r.Ok? ==> IsAnswer(chain, target.value, r.value, early)
      ensures r.Ok? && target.value !in old(cache) && !IsLeast(chain, target.value, r.value) ==>
                old(head) <= r.value && IsEarly(chain, target.value, r.value)
      ensures target.Some? && target.value !in old(cache) ==>
                forall row <- old(rows) :: row.timestamp == target.value ==> r == Ok(row.height)
      ensures r == Err(InTheFuture) ==> target.value > old(chain[head])
      ensures r.Err? && r.error.MissingBlock? ==> GENESIS <= r.error.height <= head && r.error.height !in chain
      ensures target.Some? && target.value in old(cache) ==>
                r == Ok(old(cache)[target.value]) && chain == old(chain) && cache == old(cache)
    {
      if target.None? { return Err(OutOfRange); }
      if target.value in cache { return Ok(cache[target.value]); }
      r := FetchBlockHeight(target.value);
      if r.Ok? {
        cache := cache[target.value := r.value];
      }
    }
  }

  // ----- Whole runs -----

  datatype Snapshot = Snapshot(chain: Chain, head: nat)

  // What GrowChain, Await and every lookup promise about two moments in time.
  ghost predicate IsRun(run: seq<Snapshot>) {
    && (forall i :: 0 <= i < |run| ==> ChainValid(run[i].chain, run[i].head))
    && (forall i :: 0 < i < |run| ==> Extends(run[i - 1].chain, run[i - 1].head, run[i].chain, run[i].head))
  }

  lemma {:induction false} RunExtends(run: seq<Snapshot>, i: nat, j: nat)
    requires IsRun(run) && i <= j < |run|
    ensures Extends(run[i].chain, run[i].head, run[j].chain, run[j].head)
    decreases j
  {
    if i < j {
      RunExtends(run, i, j - 1);
      assert Extends(run[j - 1].chain, run[j - 1].head, run[j].chain, run[j].head);
    }
  }

  // Cache, database and search, asked at any two moments, give one answer.
  lemma AnswersNeverGoStale(run: seq<Snapshot>, i: nat, j: nat, target: int, g: nat, h: nat)
    requires IsRun(run) && i <= j < |run|
    requires IsLeast(run[i].chain, target, g) && IsLeast(run[j].chain, target, h)
    ensures g == h
    ensures forall k :: i <= k < |run| ==> IsLeast(run[k].chain, target, g)
  {
    forall k | i <= k < |run| ensures IsLeast(run[k].chain, target, g) {
      RunExtends(run, i, k);
      LeastStable(run[i].chain, run[i].head, run[k].chain, run[k].head, target, g);
    }
    LeastUnique(run[j].chain, target, g, h);
  }
}
