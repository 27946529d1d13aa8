/** The bounded sample memories of countercoup/shared/memory.py: a list that
    grows until it holds `size` items and then keeps a random sample of
    everything added, `randint`'s draw being passed in. */
module Memories {
  import opened Util

  datatype Memory<T> = Memory(size: int, counter: nat, data: seq<T>)

  /** How many items a memory holds after `counter` additions. */
  function Held(size: int, counter: nat): (n: nat)
    ensures n <= counter
    ensures size >= 0 ==> n <= size
    ensures counter <= size ==> n == counter
  {
    if counter < size then counter else Max(size, 0)
  }

  /** The invariant every memory keeps: `len(data) == min(counter, size)`. */
  predicate Valid<T>(m: Memory<T>) {
    |m.data| == Held(m.size, m.counter)
  }

  /** `Memory(size)`: nothing added yet. */
  function NewMemory<T>(size: int): (m: Memory<T>)
    ensures Valid(m) && m.size == size && m.counter == 0 && m.data == []
  {
    Memory(size, 0, [])
  }

  /** A draw `randint(0, counter)` can return. */
  predicate Drawable<T>(m: Memory<T>, drawn: int) {
    0 <= drawn <= m.counter
  }

  /** `add(item)`: appended while fewer than size items were ever added;
      afterwards it replaces slot `drawn` when `drawn < size - 1` and is
      dropped otherwise. The counter counts every call. */
  function Add<T>(m: Memory<T>, item: T, drawn: int): (r: Memory<T>)
    requires Valid(m) && Drawable(m, drawn)
    ensures Valid(r) && r.size == m.size && r.counter == m.counter + 1
    ensures m.size >= 0 ==> |r.data| <= m.size
    ensures m.counter < m.size ==> r.data == m.data + [item]
    ensures m.counter >= m.size ==> |r.data| == |m.data| && forall j :: 0 <= j < |m.data| && j != drawn ==> r.data[j] == m.data[j]
    ensures m.counter >= m.size && 0 <= drawn < |m.data| ==> r.data[drawn] == (if drawn < m.size - 1 then item else m.data[drawn])
  {
    if m.counter < m.size then Memory(m.size, m.counter + 1, m.data + [item])
    else if drawn < m.size - 1 then Memory(m.size, m.counter + 1, m.data[drawn := item])
    else Memory(m.size, m.counter + 1, m.data)
  }

  /** Draws that suit a run of `add` calls starting from counter c. */
  predicate DrawsFit(c: nat, draws: seq<int>) {
    forall k :: 0 <= k < |draws| ==> 0 <= draws[k] <= c + k
  }

  /** `add_bulk(items)`: one `add` per item, in order, each with its own draw. */
  function AddBulk<T>(m: Memory<T>, items: seq<T>, draws: seq<int>): (r: Memory<T>)
    requires Valid(m) && |draws| == |items| && DrawsFit(m.counter, draws)
    ensures Valid(r) && r.size == m.size && r.counter == m.counter + |items|
    decreases |items|
  {
    if |items| == 0 then m
    else AddBulk(Add(m, items[0], draws[0]), items[1..], draws[1..])
  }

  /** `len(memory)`. */
  function Len<T>(m: Memory<T>): (n: nat)
    requires Valid(m)
    ensures n == Held(m.size, m.counter)
  {
    |m.data|
  }

  /** `memory[idx]`: Python list indexing, negative indices counting from
      the end, IndexError outside `-len .. len - 1`. */
  function GetItem<T>(m: Memory<T>, idx: int): (r: Result<T>)
    ensures r.Err? <==> idx < -|m.data| || idx >= |m.data|
    ensures r.Err? ==> r.error == IndexError
    ensures r.Ok? && idx >= 0 ==> r.value == m.data[idx]
    ensures r.Ok? && idx < 0 ==> r.value == m.data[|m.data| + idx]
  {
    if 0 <= idx < |m.data| then Ok(m.data[idx])
    else if -|m.data| <= idx < 0 then Ok(m.data[|m.data| + idx])
    else Err(IndexError)
  }

  /** Slot size - 1 of a full memory never changes, whatever is drawn: the
      comparison `i < size - 1` leaves it out. */
  lemma LastSlotKept<T>(m: Memory<T>, item: T, drawn: int)
    requires Valid(m) && Drawable(m, drawn) && 0 < m.size <= m.counter
    ensures |Add(m, item, drawn).data| == m.size
    ensures Add(m, item, drawn).data[m.size - 1] == m.data[m.size - 1]
  {
  }

  /** Every other slot of a full memory is replaced by some draw. */
  lemma OtherSlotsReplaceable<T>(m: Memory<T>, item: T, j: nat)
    requires Valid(m) && m.size <= m.counter && j < m.size - 1
    ensures Drawable(m, j) && Add(m, item, j).data[j] == item
  {
  }

  /** Adding in bulk is one `add` after another: splitting the items splits
      the run. */
  lemma {:induction false} AddBulkSplit<T>(m: Memory<T>, a: seq<T>, b: seq<T>, da: seq<int>, db: seq<int>)
    requires Valid(m) && |da| == |a| && |db| == |b|
    requires DrawsFit(m.counter, da + db)
    ensures DrawsFit(m.counter, da) && DrawsFit(m.counter + |a|, db)
    ensures AddBulk(m, a + b, da + db) == AddBulk(AddBulk(m, a, da), b, db)
    decreases |a|
  {
    assert forall k :: 0 <= k < |db| ==> (da + db)[|da| + k] == db[k];
    if |a| > 0 {
      assert da[0] == (da + db)[0];
      var m1 := Add(m, a[0], da[0]);
      assert (a + b)[1..] == a[1..] + b;
      assert (da + db)[1..] == da[1..] + db;
      assert forall k :: 0 <= k < |da[1..] + db| ==> (da[1..] + db)[k] == (da + db)[k + 1];
      AddBulkSplit(m1, a[1..], b, da[1..], db);
    } else {
      assert a + b == b && da + db == db;
    }
  }

  /** While the memory is not yet full, `add_bulk` appends the items in
      order, whatever the draws. */
  lemma {:induction false} FillAppends<T>(m: Memory<T>, items: seq<T>, draws: seq<int>)
    requires Valid(m) && |draws| == |items| && DrawsFit(m.counter, draws)
    requires m.counter + |items| <= m.size
    ensures AddBulk(m, items, draws).data == m.data + items
    decreases |items|
  {
    if |items| > 0 {
      var m1 := Add(m, items[0], draws[0]);
      assert forall k :: 0 <= k < |draws[1..]| ==> draws[1..][k] == draws[k + 1];
      FillAppends(m1, items[1..], draws[1..]);
      assert m.data + items == m.data + [items[0]] + items[1..];
    }
  }

  /** Once the memory is full, `add_bulk` never changes its length, and the
      last slot keeps the item it had. */
  lemma {:induction false} FullKeepsLast<T>(m: Memory<T>, items: seq<T>, draws: seq<int>)
    requires Valid(m) && |draws| == |items| && DrawsFit(m.counter, draws)
    requires 0 < m.size <= m.counter
    ensures |AddBulk(m, items, draws).data| == m.size
    ensures AddBulk(m, items, draws).data[m.size - 1] == m.data[m.size - 1]
    decreases |items|
  {
    if |items| > 0 {
      var m1 := Add(m, items[0], draws[0]);
      LastSlotKept(m, items[0], draws[0]);
      assert forall k :: 0 <= k < |draws[1..]| ==> draws[1..][k] == draws[k + 1];
      FullKeepsLast(m1, items[1..], draws[1..]);
    }
  }
}

/** countercoup/shared/batch_memory.py: a Keras sequence that serves batches
    out of a memory, shuffled once when built, each epoch starting where the
    previous one stopped and wrapping around. */
module BatchMemories {
  import opened Util
  import opened Memories

  datatype BatchMemory<T> = BatchMemory(memory: Memory<T>, batchSize: int, batchBegin: int)

  /** `BatchMemory(memory, batch_size)`: the data shuffled in place by the
      picks, reading from position 0. */
  function NewBatch<T(==)>(m: Memory<T>, batchSize: int, picks: seq<nat>): (r: (BatchMemory<T>, seq<nat>))
    requires Valid(m)
    ensures var b := r.0;
            Valid(b.memory) && b.memory.size == m.size && b.memory.counter == m.counter &&
            b.batchSize == batchSize && b.batchBegin == 0
    ensures multiset(r.0.memory.data) == multiset(m.data)
  {
    var shuffled := Shuffle(m.data, picks);
    (BatchMemory(Memory(m.size, m.counter, shuffled.0), batchSize, 0), shuffled.1)
  }

  /** `len(batches)`: the batch size, however much the memory holds. */
  function BatchLen<T>(b: BatchMemory<T>): int {
    b.batchSize
  }

  /** Over a nonempty memory exactly the indices below `len(batches)` (and
      any negative one) are served, all from inside the memory. */
  lemma BatchServes<T>(b: BatchMemory<T>, idx: int)
    requires |b.memory.data| > 0
    ensures BatchGetItem(b, idx).Ok? <==> idx < BatchLen(b)
    ensures BatchGetItem(b, idx).Ok? ==> BatchGetItem(b, idx).value in b.memory.data
  {
  }

  /** `batches[idx]`: an index past the batch is an IndexError; otherwise the
      item `idx` places after the batch start, wrapping around the memory. An
      empty memory divides by zero. */
  function BatchGetItem<T>(b: BatchMemory<T>, idx: int): (r: Result<T>)
    ensures idx > b.batchSize - 1 ==> r == Err(IndexError)
    ensures idx <= b.batchSize - 1 && |b.memory.data| == 0 ==> r == Err(ZeroDivisionError)
    ensures idx <= b.batchSize - 1 && |b.memory.data| > 0 ==>
              r.Ok? && r.value == b.memory.data[(b.batchBegin + idx) % |b.memory.data|]
  {
    if idx > b.batchSize - 1 then Err(IndexError)
    else if |b.memory.data| == 0 then Err(ZeroDivisionError)
    else GetItem(b.memory, (b.batchBegin + idx) % |b.memory.data|)
  }

  /** `on_epoch_end()`: the next epoch starts batch_size places further on,
      modulo the memory length. */
  function OnEpochEnd<T>(b: BatchMemory<T>): (r: Result<BatchMemory<T>>)
    ensures r.Err? <==> |b.memory.data| == 0
    ensures r.Err? ==> r.error == ZeroDivisionError
    ensures r.Ok? ==> r.value.memory == b.memory && r.value.batchSize == b.batchSize
    ensures r.Ok? ==> 0 <= r.value.batchBegin < |b.memory.data|
  {
    if |b.memory.data| == 0 then Err(ZeroDivisionError)
    else Ok(b.(batchBegin := (b.batchBegin + b.batchSize) % |b.memory.data|))
  }

  /** `a * n` is at least n once a is at least 1. */
  lemma MulAtLeast(a: int, n: int)
    requires a >= 1 && n > 0
    ensures a * n >= n
  {
    assert a * n == (a - 1) * n + n;
  }

  /** A remainder is unique: `k * n + r` with `0 <= r < n` leaves r. */
  lemma ModUnique(y: int, k: int, r: int, n: int)
    requires n > 0 && 0 <= r < n && y == k * n + r
    ensures y % n == r
  {
    var k2, r2 := y / n, y % n;
    assert y == k2 * n + r2;
    if k > k2 {
      assert (k - k2) * n == k * n - k2 * n;
      MulAtLeast(k - k2, n);
    } else if k < k2 {
      assert (k2 - k) * n == k2 * n - k * n;
      MulAtLeast(k2 - k, n);
    }
  }

  /** Reducing the start modulo n first reads the same position. */
  lemma ModShift(a: int, i: int, n: int)
    requires n > 0
    ensures ((a % n) + i) % n == (a + i) % n
  {
    var k, r := (a % n + i) / n, (a % n + i) % n;
    assert a % n + i == k * n + r;
    assert a == (a / n) * n + a % n;
    assert a + i == (a / n + k) * n + r;
    ModUnique(a + i, a / n + k, r, n);
  }

  /** Reading position idx after an epoch ends reads what position
      batch_size + idx read before: consecutive epochs read consecutive
      stretches of the memory. */
  lemma EpochContinues<T>(b: BatchMemory<T>, idx: int)
    requires |b.memory.data| > 0
    requires idx <= b.batchSize - 1
    ensures OnEpochEnd(b).Ok?
    ensures BatchGetItem(OnEpochEnd(b).value, idx) ==
            Ok(b.memory.data[(b.batchBegin + b.batchSize + idx) % |b.memory.data|])
  {
    ModShift(b.batchBegin + b.batchSize, idx, |b.memory.data|);
  }

  /** Within one batch no item is read twice when the batch fits in the
      memory and the start lies in range. */
  lemma BatchReadsDistinct<T>(b: BatchMemory<T>, i: int, j: int)
    requires 0 <= b.batchBegin < |b.memory.data|
    requires 0 <= i < j < b.batchSize <= |b.memory.data|
    ensures (b.batchBegin + i) % |b.memory.data| != (b.batchBegin + j) % |b.memory.data|
  {
    var n := |b.memory.data|;
    var x, y := b.batchBegin + i, b.batchBegin + j;
    if x < n { ModUnique(x, 0, x, n); } else { ModUnique(x, 1, x - n, n); }
    if y < n { ModUnique(y, 0, y, n); } else { ModUnique(y, 1, y - n, n); }
  }
}
