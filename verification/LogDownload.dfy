/** Downloading a log file in blocks while the server may still be writing it. */
module LogDownload {
  import opened Text

  type Bytes = seq<bv8>

  const FTP_BLOCK_SIZE: nat := 640 * 1024

  /** What the client meets in its `r`-th call: the file as the server then finds it (or cannot open
      it), whether the call fails, and whether the progress callback wants to go on. A download
      without a callback is one whose callback always goes on. */
  datatype World = World(file: nat -> Option<Bytes>, callFails: nat -> bool, goesOn: nat -> bool)

  /** The size the server computes: the conversion to 32 bits comes before the test that was to
      limit it. */
  function FileSize(file: Bytes): nat { |file| % UINT_LIMIT }

  /** One block from the given offset, or nothing at the end of the file. */
  function SiReadLocalLogFile(file: Option<Bytes>, offset: nat): (block: Option<Bytes>)
    ensures block.Some? <==> file.Some? && offset < FileSize(file.value)
    ensures block.Some? ==> 0 < |block.value| <= FTP_BLOCK_SIZE && offset + |block.value| <= FileSize(file.value) <= |file.value|
    ensures block.Some? ==> block.value == file.value[offset..offset + |block.value|]
    ensures block.Some? && |block.value| < FTP_BLOCK_SIZE ==> offset + |block.value| == FileSize(file.value)
  {
    if file.None? || offset >= FileSize(file.value) then None
    else
      var rest := FileSize(file.value) - offset;
      var size := if rest < FTP_BLOCK_SIZE then rest else FTP_BLOCK_SIZE;
      Some(file.value[offset..offset + size])
  }

  // ---- Progress ----

  function Max(a: nat, b: nat): nat { if a >= b then a else b }

  function MakeSure(a: nat, lo: nat, hi: nat): nat
    requires lo <= hi
  {
    if a > hi then hi else if a < lo then lo else a
  }

  function ProgressPercent(current: nat, total: nat): nat {
    MakeSure(current * 100 / Max(Max(total, current), 1), 0, 100)
  }

  lemma DivisionIsMonotone(a: nat, b: nat, d: nat)
    requires a <= b && d > 0
    ensures a / d <= b / d
  {
    QuotientsInOrder(d, a / d, a % d, b / d, b % d);
  }

  lemma QuotientsInOrder(d: nat, q: nat, r: nat, p: nat, t: nat)
    requires q * d + r <= p * d + t && t < d
    ensures q <= p
  {
    assert (p + 1) * d == p * d + d;
    if p < q {
      MultiplicationIsMonotone(p + 1, q, d);
    }
  }

  lemma MultiplicationIsMonotone(a: nat, b: nat, d: nat)
    requires a <= b
    ensures a * d <= b * d
  {
  }

  lemma WholeIsHundred(d: nat)
    requires d > 0
    ensures d * 100 / d == 100
  {
  }

  /** The percentage stays within 0 and 100 and never goes back while bytes arrive. */
  lemma PercentNeverDecreases(total: nat, before: nat, after: nat)
    requires before <= after
    ensures 0 <= ProgressPercent(before, total) <= ProgressPercent(after, total) <= 100
  {
    if after <= total {
      DivisionIsMonotone(before * 100, after * 100, Max(total, 1));
    } else {
      WholeIsHundred(after);
    }
  }

  /** What a progress report says: 100 exactly when everything announced has arrived, and below that the
      percentage, rounded down. */
  predicate IsPercentOf(percent: nat, current: nat, total: nat) {
    if current >= total then percent == 100
    else percent < 100 && percent * total <= current * 100 && current * 100 < (percent + 1) * total
  }

  lemma PercentIsExact(current: nat, total: nat)
    requires current > 0
    ensures IsPercentOf(ProgressPercent(current, total), current, total)
  {
    if current >= total {
      WholeIsHundred(current);
    } else {
      var q := current * 100 / total;
      QuotientBounds(current * 100, total);
      QuotientBelow(q, current, total);
      PercentIsQuotient(current, total, q);
    }
  }

  lemma PercentIsQuotient(current: nat, total: nat, q: nat)
    requires current < total && q == current * 100 / total && q < 100
    ensures ProgressPercent(current, total) == q
  {
    hide IsPercentOf;
  }

  lemma QuotientBounds(a: nat, d: nat)
    requires d > 0
    ensures a / d * d <= a && a < (a / d + 1) * d
  {
  }

  lemma QuotientBelow(q: nat, current: nat, total: nat)
    requires q * total <= current * 100 && current < total
    ensures q < 100
  {
    if q >= 100 {
      AtLeastHundredTimes(q, total);
    }
  }

  lemma AtLeastHundredTimes(q: nat, total: nat)
    requires q >= 100
    ensures q * total >= 100 * total
  {
    assert q * total == 100 * total + (q - 100) * total;
  }

  // ---- The loop ----

  /** How many bytes have arrived after the first `n` calls. */
  function Received(file: nat -> Option<Bytes>, n: nat): nat {
    if n == 0 then 0
    else
      var before := Received(file, n - 1);
      match SiReadLocalLogFile(file(n - 1), before)
      case None => before
      case Some(block) => before + |block|
  }

  /** All blocks from the `r`-th call on. */
  function Downloaded(file: nat -> Option<Bytes>, r: nat, offset: nat): Bytes
    decreases UINT_LIMIT - offset
  {
    match SiReadLocalLogFile(file(r), offset)
    case None => []
    case Some(block) => block + Downloaded(file, r + 1, offset + |block|)
  }

  /** How many calls return data. */
  function DataReads(file: nat -> Option<Bytes>, r: nat, offset: nat): nat
    decreases UINT_LIMIT - offset
  {
    match SiReadLocalLogFile(file(r), offset)
    case None => 0
    case Some(block) => 1 + DataReads(file, r + 1, offset + |block|)
  }

  /** No call up to and including the last one fails, and no callback cancels. */
  predicate Undisturbed(w: World, n: nat) {
    (forall r | 0 <= r <= n :: !w.callFails(r)) && (forall r | 0 <= r < n :: w.goesOn(r))
  }

  lemma Unfold(file: nat -> Option<Bytes>, r: nat, offset: nat)
    ensures match SiReadLocalLogFile(file(r), offset)
            case None => Downloaded(file, r, offset) == [] && DataReads(file, r, offset) == 0
            case Some(block) =>
              && Downloaded(file, r, offset) == block + Downloaded(file, r + 1, offset + |block|)
              && DataReads(file, r, offset) == 1 + DataReads(file, r + 1, offset + |block|)
  {
  }

  /** What the client ends up with: nothing if it was disturbed, and nothing if nothing arrived. */
  function Outcome(w: World): Option<Bytes> {
    var all := Downloaded(w.file, 0, 0);
    if Undisturbed(w, DataReads(w.file, 0, 0)) && all != [] then Some(all) else None
  }

  /** Every report is exact for what had arrived. */
  predicate ReportsAreExact(percents: seq<nat>, file: nat -> Option<Bytes>, total: nat) {
    forall i | 0 <= i < |percents| :: IsPercentOf(percents[i], Received(file, i + 1), total)
  }

  predicate Rising(percents: seq<nat>, bound: nat) {
    && (forall i, j | 0 <= i <= j < |percents| :: 0 <= percents[i] <= percents[j] <= 100)
    && (forall i | 0 <= i < |percents| :: percents[i] <= bound)
  }

  lemma OneMoreReport(percents: seq<nat>, file: nat -> Option<Bytes>, total: nat, bound: nat, p: nat)
    requires ReportsAreExact(percents, file, total) && IsPercentOf(p, Received(file, |percents| + 1), total)
    requires Rising(percents, bound) && bound <= p <= 100
    ensures ReportsAreExact(percents + [p], file, total) && Rising(percents + [p], p)
  {
    hide IsPercentOf, Received;
  }

  lemma ReceivedMore(file: nat -> Option<Bytes>, r: nat)
    ensures Received(file, 0) == 0
    ensures match SiReadLocalLogFile(file(r), Received(file, r))
            case None => true
            case Some(block) => Received(file, r + 1) == Received(file, r) + |block|
  {
    hide SiReadLocalLogFile;
  }

  method DownloadFileFromServer(w: World, totalSize: nat) returns (result: Option<Bytes>, percents: seq<nat>)
    ensures result == Outcome(w)
    ensures result.Some? ==> |percents| == DataReads(w.file, 0, 0)
    ensures forall i, j | 0 <= i <= j < |percents| :: 0 <= percents[i] <= percents[j] <= 100
    ensures ReportsAreExact(percents, w.file, totalSize)
  {
    hide SiReadLocalLogFile, ProgressPercent, Downloaded, DataReads, Received, IsPercentOf;
    var buf: Bytes := [];
    var offset, r := 0, 0;
    percents := [];
    ReceivedMore(w.file, 0);
    assert ReportsAreExact([], w.file, totalSize) && Rising([], ProgressPercent(0, totalSize));
    hide ReportsAreExact;
    while true
      invariant offset == |buf| == Received(w.file, r) <= UINT_LIMIT
      invariant buf + Downloaded(w.file, r, offset) == Downloaded(w.file, 0, 0)
      invariant r + DataReads(w.file, r, offset) == DataReads(w.file, 0, 0)
      invariant (forall i | 0 <= i < r :: !w.callFails(i)) && (forall i | 0 <= i < r :: w.goesOn(i))
      invariant |percents| == r && ReportsAreExact(percents, w.file, totalSize) && Rising(percents, ProgressPercent(offset, totalSize))
      decreases UINT_LIMIT - offset
    {
      assert r <= DataReads(w.file, 0, 0);
      if w.callFails(r) {
        return None, percents;
      }
      var block := SiReadLocalLogFile(w.file(r), offset);
      Unfold(w.file, r, offset);
      if block.None? {
        break;
      }
      ReceivedMore(w.file, r);
      ghost var bound := ProgressPercent(offset, totalSize);
      PercentNeverDecreases(totalSize, offset, offset + |block.value|);
      offset := offset + |block.value|;
      PercentIsExact(offset, totalSize);
      OneMoreReport(percents, w.file, totalSize, bound, ProgressPercent(offset, totalSize));
      percents := percents + [ProgressPercent(offset, totalSize)];
      buf := buf + block.value;
      assert r < DataReads(w.file, 0, 0);
      if !w.goesOn(r) {
        return None, percents;
      }
      r := r + 1;
    }
    assert buf == Downloaded(w.file, 0, 0);
    result := if |buf| == 0 then None else Some(buf);
  }

  // ---- What has been downloaded ----

  /** The number of blocks, rounded up. */
  function Blocks(size: nat): nat { (size + FTP_BLOCK_SIZE - 1) / FTP_BLOCK_SIZE }

  lemma OneBlockLess(size: nat)
    ensures size == 0 ==> Blocks(size) == 0
    ensures 0 < size <= FTP_BLOCK_SIZE ==> Blocks(size) == 1
    ensures size > FTP_BLOCK_SIZE ==> Blocks(size) == 1 + Blocks(size - FTP_BLOCK_SIZE)
  {
  }

  /** A file that never changes comes block by block up to its size in 32 bits. */
  lemma {:induction false} UnchangedFrom(file: nat -> Option<Bytes>, content: Bytes, r: nat, offset: nat)
    requires forall i :: file(i) == Some(content)
    requires offset <= FileSize(content)
    ensures Downloaded(file, r, offset) == content[offset..FileSize(content)]
    ensures DataReads(file, r, offset) == Blocks(FileSize(content) - offset)
    decreases FileSize(content) - offset
  {
    assert FileSize(content) <= |content|;
    hide Blocks, FileSize;
    OneBlockLess(FileSize(content) - offset);
    var block := SiReadLocalLogFile(file(r), offset);
    if block.Some? {
      var next := offset + |block.value|;
      UnchangedFrom(file, content, r + 1, next);
      assert content[offset..next] + content[next..FileSize(content)] == content[offset..FileSize(content)];
    } else {
      assert file(r) == Some(content) && offset == FileSize(content);
    }
  }

  /** The handler returns exactly the file, in as many reads as it has blocks, if and only if the file
      is not empty and its size fits in 32 bits. It returns nothing for an empty file and for a size that
      is a multiple of 2^32, and of any other longer file the first size-modulo-2^32 bytes. */
  lemma UnchangedFileArrivesWhole(w: World, content: Bytes)
    requires (forall r :: w.file(r) == Some(content)) && (forall r :: !w.callFails(r) && w.goesOn(r))
    ensures Outcome(w) == Some(content) <==> 0 < |content| < UINT_LIMIT
    ensures Outcome(w) == None <==> FileSize(content) == 0
    ensures Outcome(w).Some? ==> Outcome(w).value == content[..FileSize(content)]
    ensures DataReads(w.file, 0, 0) == Blocks(FileSize(content))
  {
    UnchangedFrom(w.file, content, 0, 0);
    assert Undisturbed(w, DataReads(w.file, 0, 0));
    hide DataReads, Downloaded, Blocks;
    if |content| < UINT_LIMIT {
      assert content[0..|content|] == content;
    } else {
      assert |content[0..FileSize(content)]| < |content|;
    }
  }

  /** The file can always be opened, only grows, and stays below 2^32 bytes. */
  ghost predicate OnlyGrows(file: nat -> Option<Bytes>) {
    && (forall r: nat :: file(r).Some? && |file(r).value| < UINT_LIMIT)
    && (forall r: nat :: file(r).Some? && file(r + 1).Some? ==> file(r).value <= file(r + 1).value)
  }

  /** What the handler returns for a file that grows meanwhile: the file as the last call found it. */
  lemma GrowingFileIsReturned(w: World)
    requires OnlyGrows(w.file) && (forall r :: !w.callFails(r) && w.goesOn(r))
    ensures var last := w.file(DataReads(w.file, 0, 0)).value;
            Outcome(w) == if last == [] then None else Some(last)
  {
    assert Undisturbed(w, DataReads(w.file, 0, 0));
    GrowingFileArrivesWhole(w.file, 0, 0);
    hide DataReads, Downloaded;
    assert w.file(0).value[..0] + Downloaded(w.file, 0, 0) == Downloaded(w.file, 0, 0);
  }

  /** The download of a file that grows meanwhile is the file as the last call found it. */
  lemma {:induction false} GrowingFileArrivesWhole(file: nat -> Option<Bytes>, r: nat, offset: nat)
    requires OnlyGrows(file) && offset <= |file(r).value|
    ensures file(r).value[..offset] + Downloaded(file, r, offset) == file(r + DataReads(file, r, offset)).value
    decreases UINT_LIMIT - offset
  {
    var block := SiReadLocalLogFile(file(r), offset);
    assert file(r).Some?;
    if block.Some? {
      var next := offset + |block.value|;
      assert file(r).value <= file(r + 1).value;
      GrowingFileArrivesWhole(file, r + 1, next);
      assert file(r + 1).value[..next] == file(r).value[..offset] + block.value;
    }
  }
}
