/** Swap slots (src/mm/swap.c): the rotated bitmap scan, swap entries, and pages going out and coming back. A block
    device is an array of sectors; a bitmap is its bits, 64 to the word. */
module Swap {
  import opened Bits
  import opened Options

  // ---------------------------------------------------------------- swap entries

  /** `swap_encode_pte`. */
  function Encode(dev: nat, off: nat): nat { Or(U64(off * 0x1000), (dev % 8) * 2) }

  /** `swap_decode_pte`. */
  function Decode(pte: nat): Option<(nat, nat)> {
    if pte % 2 == 1 then None else Some(((pte / 2) % 8, pte / 0x1000))
  }

  lemma EncodeValue(dev: nat, off: nat)
    ensures Encode(dev, off) == (off % 0x10_0000_0000_0000) * 0x1000 + (dev % 8) * 2
  {
    hide Or, Pow2;
    OrCommutes(U64(off * 0x1000), (dev % 8) * 2);
    Pow2Literals();
    ModAddScale(0, off, 0x10_0000_0000_0000, 0x1000, 0x1_0000_0000_0000_0000);
    OrDisjoint((dev % 8) * 2, off % 0x10_0000_0000_0000, 12);
  }

  /** Decoding inverts encoding exactly for device numbers below 8 and slots below 2^52; an entry is never odd. */
  lemma EncodeExact(dev: nat, off: nat)
    ensures Encode(dev, off) % 2 == 0
    ensures Decode(Encode(dev, off)) == Some((dev, off)) <==> dev < 8 && off < 0x10_0000_0000_0000
  {
    hide Encode;
    EncodeValue(dev, off);
    Fields(dev % 8, off % 0x10_0000_0000_0000);
  }

  lemma Fields(d: nat, o: nat)
    requires d < 8
    ensures var e := o * 0x1000 + d * 2; e % 2 == 0 && (e / 2) % 8 == d && e / 0x1000 == o
  {
    var e := o * 0x1000 + d * 2;
    ModUnique(e, 2, o * 0x800 + d, 0);
    ModUnique(o * 0x800 + d, 8, o * 0x100, d);
    ModUnique(e, 0x1000, o, d * 2);
  }

  // ---------------------------------------------------------------- the scan

  /** The first clear bit of word `w` from bit `b` on that is a slot. */
  function WordScan(bits: seq<bool>, n: nat, w: nat, b: nat): (r: Option<nat>)
    requires n <= |bits| && b <= 64
    ensures r.Some? ==> r.value < n && !bits[r.value] && w * 64 + b <= r.value < w * 64 + 64
    ensures r.Some? ==> forall i | w * 64 + b <= i < r.value :: bits[i]
    ensures r.None? ==> forall i | w * 64 + b <= i < w * 64 + 64 && i < n :: bits[i]
    decreases 64 - b
  {
    if b == 64 || w * 64 + b >= n then None
    else if !bits[w * 64 + b] then Some(w * 64 + b)
    else WordScan(bits, n, w, b + 1)
  }

  function Words(n: nat): nat { (n + 63) / 64 }

  /** The word seen after `wi` steps from word `start`. */
  function Turn(wi: nat, start: nat, words: nat): (w: nat)
    requires words > 0
    ensures w < words
  {
    (wi + start) % words
  }

  /** `slot_alloc_dev`'s loop: words in order from `start`, around the end, `wi` of them already seen. */
  function Scan(bits: seq<bool>, n: nat, start: nat, wi: nat): (r: Option<nat>)
    requires n <= |bits| && Words(n) > 0
    ensures r.Some? ==> r.value < n && !bits[r.value]
    decreases Words(n) - wi
  {
    if wi >= Words(n) then None
    else
      var hit := WordScan(bits, n, Turn(wi, start, Words(n)), 0);
      if hit.Some? then hit else Scan(bits, n, start, wi + 1)
  }

  /** The scan fails only if every word it has not seen yet is full. */
  lemma {:induction false} ScanSees(bits: seq<bool>, n: nat, start: nat, wi: nat, k: nat)
    requires n <= |bits| && Words(n) > 0 && wi <= k < Words(n) && Scan(bits, n, start, wi) == None
    ensures forall i | Turn(k, start, Words(n)) * 64 <= i < Turn(k, start, Words(n)) * 64 + 64 && i < n :: bits[i]
    decreases k - wi
  {
    hide Turn, Words;
    if wi < k { ScanSees(bits, n, start, wi + 1, k); }
  }

  /** Every word is some number of steps from where the scan starts. */
  lemma Rotation(w: nat, start: nat, words: nat) returns (k: nat)
    requires w < words
    ensures k < words && Turn(k, start, words) == w
  {
    var r := start % words;
    DivMod(start, words);
    var q := start / words;
    if w >= r {
      k := w - r;
      ModUnique(k + start, words, q, w);
    } else {
      k := w + words - r;
      assert words * (q + 1) == words * q + words;
      ModUnique(k + start, words, q + 1, w);
    }
  }

  /** The rotated scan succeeds exactly when some slot is free, wherever it starts. */
  lemma ScanComplete(bits: seq<bool>, n: nat, start: nat)
    requires n <= |bits| && n > 0
    ensures Words(n) > 0 && (Scan(bits, n, start, 0) == None <==> forall i | 0 <= i < n :: bits[i])
  {
    if Scan(bits, n, start, 0) == None {
      forall i | 0 <= i < n ensures bits[i] {
        assert i / 64 < Words(n);
        var k := Rotation(i / 64, start, Words(n));
        ScanSees(bits, n, start, 0, k);
      }
    }
  }

  /** The words before the one with the hit, in the order of the scan, are full, and so are the bits before it. */
  lemma {:induction false} ScanFirst(bits: seq<bool>, n: nat, start: nat, wi: nat) returns (k: nat)
    requires n <= |bits| && Words(n) > 0 && Scan(bits, n, start, wi).Some?
    ensures var i := Scan(bits, n, start, wi).value; var w := Turn(k, start, Words(n));
      && wi <= k < Words(n) && w * 64 <= i < w * 64 + 64 && (forall j | w * 64 <= j < i :: bits[j])
    ensures forall m | wi <= m < k :: WordFull(bits, n, Turn(m, start, Words(n)))
    decreases Words(n) - wi
  {
    hide Turn, Words;
    if WordScan(bits, n, Turn(wi, start, Words(n)), 0).Some? {
      k := wi;
    } else {
      k := ScanFirst(bits, n, start, wi + 1);
    }
  }

  predicate WordFull(bits: seq<bool>, n: nat, w: nat)
    requires n <= |bits|
  {
    forall i | w * 64 <= i < w * 64 + 64 && i < n :: bits[i]
  }

  // ---------------------------------------------------------------- counting

  /** Free slots below `n`. */
  function Clear(bits: seq<bool>, n: nat): nat
    requires n <= |bits|
  {
    if n == 0 then 0 else Clear(bits, n - 1) + if bits[n - 1] then 0 else 1
  }

  lemma {:induction false} ClearZero(bits: seq<bool>, n: nat)
    requires n <= |bits|
    ensures Clear(bits, n) == 0 <==> forall i | 0 <= i < n :: bits[i]
  {
    if n > 0 { ClearZero(bits, n - 1); }
  }

  lemma {:induction false} ClearAll(bits: seq<bool>, n: nat)
    requires n <= |bits| && forall i | 0 <= i < n :: !bits[i]
    ensures Clear(bits, n) == n
  {
    if n > 0 { ClearAll(bits, n - 1); }
  }

  /** Flipping one bit below `n` changes the count by one. */
  lemma {:induction false} ClearFlip(bits: seq<bool>, n: nat, i: nat)
    requires n <= |bits| && i < |bits|
    ensures Clear(bits[i := true], n) == Clear(bits, n) - if i < n && !bits[i] then 1 else 0
    ensures Clear(bits[i := false], n) == Clear(bits, n) + if i < n && bits[i] then 1 else 0
  {
    if n > 0 { ClearFlip(bits, n - 1, i); }
  }

  // ---------------------------------------------------------------- sectors

  datatype Loc = Loc(bdev: nat, sector: nat)

  type Disk = map<Loc, nat>

  function ReadSectors(disk: Disk, bdev: nat, lba: nat, count: nat): (r: seq<nat>)
    ensures |r| == count
    decreases count
  {
    if count == 0 then []
    else [if Loc(bdev, lba) in disk then disk[Loc(bdev, lba)] else 0] + ReadSectors(disk, bdev, lba + 1, count - 1)
  }

  function WriteSectors(disk: Disk, bdev: nat, lba: nat, data: seq<nat>): Disk
    decreases |data|
  {
    if data == [] then disk else WriteSectors(disk[Loc(bdev, lba) := data[0]], bdev, lba + 1, data[1..])
  }

  predicate Disjoint(a: nat, n: nat, b: nat, m: nat) { a + n <= b || b + m <= a }

  lemma {:induction false} WriteElsewhere(disk: Disk, bdev: nat, lba: nat, data: seq<nat>, l: Loc)
    requires l.bdev != bdev || l.sector < lba || lba + |data| <= l.sector
    ensures (l in WriteSectors(disk, bdev, lba, data) <==> l in disk)
    ensures l in disk ==> WriteSectors(disk, bdev, lba, data)[l] == disk[l]
    decreases |data|
  {
    if data != [] { WriteElsewhere(disk[Loc(bdev, lba) := data[0]], bdev, lba + 1, data[1..], l); }
  }

  lemma {:induction false} WriteAt(disk: Disk, bdev: nat, lba: nat, data: seq<nat>, j: nat)
    requires j < |data|
    ensures var disk' := WriteSectors(disk, bdev, lba, data);
      Loc(bdev, lba + j) in disk' && disk'[Loc(bdev, lba + j)] == data[j]
    decreases |data|
  {
    var d1 := disk[Loc(bdev, lba) := data[0]];
    if j == 0 {
      WriteElsewhere(d1, bdev, lba + 1, data[1..], Loc(bdev, lba));
    } else {
      WriteAt(d1, bdev, lba + 1, data[1..], j - 1);
    }
  }

  lemma {:induction false} ReadBack(disk: Disk, bdev: nat, lba: nat, data: seq<nat>)
    ensures ReadSectors(WriteSectors(disk, bdev, lba, data), bdev, lba, |data|) == data
    decreases |data|
  {
    if data != [] {
      var d1 := disk[Loc(bdev, lba) := data[0]];
      ReadBack(d1, bdev, lba + 1, data[1..]);
      WriteElsewhere(d1, bdev, lba + 1, data[1..], Loc(bdev, lba));
    }
  }

  lemma {:induction false} ReadElsewhere(disk: Disk, bdev: nat, lba: nat, data: seq<nat>, bdev': nat, lba': nat,
      count: nat)
    requires bdev != bdev' || Disjoint(lba, |data|, lba', count)
    ensures ReadSectors(WriteSectors(disk, bdev, lba, data), bdev', lba', count)
      == ReadSectors(disk, bdev', lba', count)
    decreases count
  {
    if count > 0 {
      WriteElsewhere(disk, bdev, lba, data, Loc(bdev', lba'));
      ReadElsewhere(disk, bdev, lba, data, bdev', lba' + 1, count - 1);
    }
  }
}
