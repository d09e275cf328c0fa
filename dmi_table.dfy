/**
  The DMI structure table as the two walks in smbios.cpp see it.

  The table is the window `t` of bytes that runs from the table base to the table
  end; a position in `t` plays the part of the source's `const uint8_t*` cursor.
  Every read is bounds-checked against the window: a header that does not fit
  ends the walk, and a terminator pair must lie wholly inside the window.
 */
module DmiTable {
  import opened Bytes

  /// Structure type of the End-of-Table structure (Type 127 of DMTF DSP0134).
  const EndOfTable: uint8 := 127

  /// Bytes of the fixed header every structure starts with: type, length, handle.
  const HeaderSize: nat := 4

  /// Length byte below which a header is corrupt: it cannot even hold its own header.
  const MinLength: uint8 := 4

  /// One structure header as the walker records it. `data` is the position of the
  /// structure's first byte in the window, where the source keeps a pointer.
  datatype DmiHeader = DmiHeader(structureType: uint8, length: uint8, handle: uint16, data: nat)

  predicate HeaderFits(t: seq<uint8>, p: nat)
  {
    p + HeaderSize <= |t|
  }

  /// The header at position `p`, read the way the source reinterprets the bytes there;
  /// the handle is little-endian, the byte order of the platforms the source targets.
  function HeaderAt(t: seq<uint8>, p: nat): DmiHeader
    requires HeaderFits(t, p)
  {
    DmiHeader(t[p], t[p + 1], (t[p + 3] as int * 0x100 + t[p + 2] as int) as uint16, p)
  }

  /// A walk stops at `p` when no whole header fits there, when the header's length
  /// is below 4 (the table is corrupt from here) or when it is End-of-Table.
  predicate Stops(t: seq<uint8>, p: nat)
  {
    !HeaderFits(t, p) || t[p + 1] < MinLength || t[p] == EndOfTable
  }

  /// Two consecutive zero bytes, both inside the window, start at `i`.
  predicate TerminatorAt(t: seq<uint8>, i: nat)
  {
    i + 1 < |t| && t[i] == 0 && t[i + 1] == 0
  }

  /// Where the forward scan for the end of a string section, started at `q`, stops:
  /// at the first terminator pair at or after `q`, at the window end when there is
  /// none, and at `q` itself when `q` is already past the end.
  function StringsEnd(t: seq<uint8>, q: nat): (e: nat)
    decreases |t| - q
    ensures q <= e
    ensures e < |t| ==> TerminatorAt(t, e)
    ensures forall i :: q <= i < e ==> i < |t| && !TerminatorAt(t, i)
  {
    if q >= |t| || TerminatorAt(t, q) then q else StringsEnd(t, q + 1)
  }

  /// The byte-by-byte scan both passes run past a structure's formatted area: moves
  /// forward from `q` until two zero bytes inside the window start at the cursor or
  /// the window ends. A pair whose second byte would lie past the window is not a
  /// terminator.
  method SkipStrings(t: seq<uint8>, q: nat) returns (e: nat)
    ensures e == StringsEnd(t, q)
  {
    e := q;
    while e < |t| && (t[e] != 0 || e + 1 >= |t| || t[e + 1] != 0)
      invariant q <= e
      invariant StringsEnd(t, e) == StringsEnd(t, q)
      decreases |t| - e
    {
      e := e + 1;
    }
  }

  /// Where the structure whose header starts at `p` is followed by the next one:
  /// past its formatted area of `length` bytes, then past its string section and the
  /// two zero bytes that close it. When the length byte itself lies past the window
  /// (one byte left) nothing in the window follows.
  function Next(t: seq<uint8>, p: nat): (r: nat)
    requires p < |t|
    ensures p + 2 <= r
    ensures p + 1 < |t| ==> p + t[p + 1] as nat + 2 <= r
    ensures r - 2 < |t| ==> TerminatorAt(t, r - 2)
  {
    (if p + 1 < |t| then StringsEnd(t, p + t[p + 1] as nat) else |t|) + 2
  }

  /// Structures the counting pass finds from position `p` on: one for every cursor
  /// position inside the window, whatever the type or length found there.
  function Count(t: seq<uint8>, p: nat): nat
    decreases |t| - p
  {
    if p >= |t| then 0 else 1 + Count(t, Next(t, p))
  }

  /// Headers the materialising pass appends from position `p` on, when at most `n`
  /// more structures may be read.
  function Walk(t: seq<uint8>, p: nat, n: nat): seq<DmiHeader>
    decreases n
  {
    if n == 0 || Stops(t, p) then [] else [HeaderAt(t, p)] + Walk(t, Next(t, p), n - 1)
  }

  /// The counting pass advances at least two bytes per structure, so it finds at
  /// most half the remaining bytes, rounded up; an empty window holds none.
  lemma {:induction false} CountAtMostHalf(t: seq<uint8>, p: nat)
    requires p <= |t|
    ensures Count(t, p) <= (|t| - p + 1) / 2
    decreases |t| - p
  {
    if p < |t| {
      var q := Next(t, p);
      if q < |t| {
        CountAtMostHalf(t, q);
      } else {
        assert Count(t, q) == 0;
      }
    }
  }

  /// One step of the materialising pass: appending the header at `p` to `h` and walking
  /// on from two bytes past the end of its string section gives the same list as
  /// walking from `p`.
  lemma WalkAppendsHeader(h: seq<DmiHeader>, t: seq<uint8>, p: nat, n: nat, e: nat)
    requires 0 < n && !Stops(t, p)
    requires e == StringsEnd(t, p + t[p + 1] as nat)
    ensures h + Walk(t, p, n) == (h + [HeaderAt(t, p)]) + Walk(t, e + 2, n - 1)
  {
    assert Next(t, p) == e + 2;
    assert Walk(t, p, n) == [HeaderAt(t, p)] + Walk(t, e + 2, n - 1);
  }

  /// A walk with nothing left to read, or standing where it must stop, appends nothing.
  lemma WalkEndsHere(t: seq<uint8>, p: nat, n: nat)
    requires n == 0 || Stops(t, p)
    ensures Walk(t, p, n) == []
  {
  }

  /// Every appended header was read, whole, from inside the window at the position
  /// it records, has a length of at least 4 and is not End-of-Table.
  lemma {:induction false} WalkHeadersWellFormed(t: seq<uint8>, p: nat, n: nat)
    decreases n
    ensures forall i :: 0 <= i < |Walk(t, p, n)| ==>
      var h := Walk(t, p, n)[i];
      HeaderFits(t, h.data) && h == HeaderAt(t, h.data) &&
      h.length >= MinLength && h.structureType != EndOfTable
  {
    if n > 0 && !Stops(t, p) {
      WalkHeadersWellFormed(t, Next(t, p), n - 1);
    }
  }

  /// The first appended header is the one at the start position, and each later one
  /// starts where the structure before it ends.
  lemma {:induction false} WalkFollowsStructures(t: seq<uint8>, p: nat, n: nat)
    decreases n
    ensures var w := Walk(t, p, n);
      (w != [] ==> w[0].data == p) &&
      forall i :: 0 <= i < |w| - 1 ==> w[i].data < |t| && w[i + 1].data == Next(t, w[i].data)
  {
    if n > 0 && !Stops(t, p) {
      WalkFollowsStructures(t, Next(t, p), n - 1);
    }
  }

  /// Recorded positions strictly increase: each later structure starts past the
  /// formatted area and the closing pair of every earlier one.
  lemma {:induction false} WalkPositionsIncrease(t: seq<uint8>, p: nat, n: nat)
    decreases n
    ensures forall i :: 0 <= i < |Walk(t, p, n)| ==> p <= Walk(t, p, n)[i].data
    ensures forall i, j :: 0 <= i < j < |Walk(t, p, n)| ==>
      Walk(t, p, n)[i].data + Walk(t, p, n)[i].length as nat + 2 <= Walk(t, p, n)[j].data
  {
    if n > 0 && !Stops(t, p) {
      var q := Next(t, p);
      WalkPositionsIncrease(t, q, n - 1);
      var w, rest := Walk(t, p, n), Walk(t, q, n - 1);
      assert w == [HeaderAt(t, p)] + rest;
      forall i, j | 0 <= i < j < |w|
        ensures w[i].data + w[i].length as nat + 2 <= w[j].data
      {
        if i == 0 {
          assert w[j] == rest[j - 1];
        } else {
          assert w[i] == rest[i - 1] && w[j] == rest[j - 1];
        }
      }
      forall i | 0 <= i < |w| ensures p <= w[i].data {
        if i > 0 { assert w[i] == rest[i - 1]; }
      }
    }
  }

  /// When fewer than `n` headers were appended, the walk ended at a position where it
  /// must stop: the first header that does not fit, is too short or is End-of-Table.
  lemma {:induction false} WalkStopsAtFirstBadHeader(t: seq<uint8>, p: nat, n: nat)
    decreases n
    ensures var w := Walk(t, p, n);
      |w| < n ==>
        if w == [] then Stops(t, p)
        else w[|w| - 1].data < |t| && Stops(t, Next(t, w[|w| - 1].data))
  {
    if n > 0 && !Stops(t, p) {
      WalkStopsAtFirstBadHeader(t, Next(t, p), n - 1);
    }
  }

  /// The materialising pass appends at most as many headers as the counting pass counts.
  lemma {:induction false} WalkWithinCount(t: seq<uint8>, p: nat, n: nat)
    decreases n
    ensures |Walk(t, p, n)| <= Count(t, p)
  {
    if n > 0 && !Stops(t, p) {
      WalkWithinCount(t, Next(t, p), n - 1);
    }
  }

  /// Any bound at or above the count gives the same headers: the count never cuts the
  /// materialising pass short.
  lemma {:induction false} CountNeverCutsWalkShort(t: seq<uint8>, p: nat, n: nat)
    requires Count(t, p) <= n
    ensures Walk(t, p, n) == Walk(t, p, Count(t, p))
    decreases n
  {
    if !Stops(t, p) {
      CountNeverCutsWalkShort(t, Next(t, p), n - 1);
    }
  }

  /// Bounded by the counting pass, the materialising pass still ends only at a header
  /// that does not fit, is shorter than 4 or is End-of-Table.
  lemma WalkEndsAtStop(t: seq<uint8>)
    ensures var w := Walk(t, 0, Count(t, 0));
      if w == [] then Stops(t, 0)
      else w[|w| - 1].data < |t| && Stops(t, Next(t, w[|w| - 1].data))
  {
    var c := Count(t, 0);
    CountNeverCutsWalkShort(t, 0, c + 1);
    WalkWithinCount(t, 0, c + 1);
    WalkStopsAtFirstBadHeader(t, 0, c + 1);
  }

  /// A type 1 structure of length 27 with handle 0x0100, whatever its 23 remaining
  /// formatted bytes `f` hold, carrying the strings "Vendor" and "Product", followed by
  /// an End-of-Table structure of length 4.
  function VendorProductTable(f: seq<uint8>): seq<uint8>
  {
    [1, 27, 0x00, 0x01] + f +
    [0x56, 0x65, 0x6E, 0x64, 0x6F, 0x72, 0, 0x50, 0x72, 0x6F, 0x64, 0x75, 0x63, 0x74, 0, 0] +
    [127, 4, 0x01, 0x01, 0, 0]
  }

  /// The forward scan from just past the formatted area stops at the pair closing "Product".
  lemma VendorProductStringsEnd(f: seq<uint8>)
    requires |f| == 23
    ensures StringsEnd(VendorProductTable(f), 27) == 41
  {
    var t := VendorProductTable(f);
    var strings: seq<uint8> := [0x56, 0x65, 0x6E, 0x64, 0x6F, 0x72, 0, 0x50, 0x72, 0x6F, 0x64, 0x75, 0x63, 0x74, 0, 0];
    assert t[27..43] == strings;
    var k := 41;
    while k > 27
      invariant 27 <= k <= 41
      invariant StringsEnd(t, k) == 41
    {
      k := k - 1;
      assert t[k] == strings[k - 27] && t[k + 1] == strings[k - 26];
    }
  }

  /// That table counts two structures and yields exactly one header, of type 1.
  lemma VendorProductTableWalk(f: seq<uint8>)
    requires |f| == 23
    ensures Count(VendorProductTable(f), 0) == 2
    ensures Walk(VendorProductTable(f), 0, Count(VendorProductTable(f), 0)) == [DmiHeader(1, 27, 0x0100, 0)]
  {
    var t := VendorProductTable(f);
    VendorProductStringsEnd(f);
    assert |t| == 49 && t[0] == 1 && t[1] == 27 && t[2] == 0 && t[3] == 1;
    assert Next(t, 0) == 43;
    assert t[43] == 127 && t[44] == 4 && t[47] == 0 && t[48] == 0;
    assert Next(t, 43) == 49;
    assert Count(t, 49) == 0;
  }

  /// A first header whose length byte is 2 yields no structure at all.
  lemma CorruptFirstHeader(rest: seq<uint8>, n: nat)
    ensures Walk([1, 2, 0, 0] + rest, 0, n) == []
  {
  }

  /// An empty table counts no structure and yields none.
  lemma EmptyTable(n: nat)
    ensures Count([], 0) == 0 && Walk([], 0, n) == []
  {
  }
}
