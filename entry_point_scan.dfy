/**
  The brute-force scan of a physical-memory dump for SMBIOS entry points
  (`scan_physical_memory` in smbios.cpp), stated over the dump's bytes.

  The anchor test and the byte layout of the two entry-point structures are
  declared in headers that are not part of this model: the test enters as a
  `Detector` function and the layout as an `EntryPointLayout` value.
 */
module EntryPointScan {
  import opened Wrappers
  import opened Bytes

  /// What the anchor test reports for the bytes at an offset of the dump.
  datatype Anchor = NoAnchor | SMBios32 | SMBios64

  /// The anchor test: the dump and an offset in it.
  type Detector = (seq<uint8>, nat) -> Anchor

  /// The fields of the 32-bit entry point that the core reads, at their source widths.
  datatype EntryPoint32 = EntryPoint32(
    majorVersion: uint8, minorVersion: uint8, structureTableLength: uint16, structureTableAddress: uint32)

  /// The fields of the 64-bit entry point that the core reads, at their source widths.
  datatype EntryPoint64 = EntryPoint64(
    majorVersion: uint8, minorVersion: uint8, maxStructureSize: uint32, structureTableAddress: uint64)

  /// Byte size of each entry-point structure and how its fields are read from its bytes.
  datatype EntryPointLayout = EntryPointLayout(
    size32: nat, size64: nat,
    decode32: seq<uint8> -> EntryPoint32, decode64: seq<uint8> -> EntryPoint64)

  /// The part of the object's state the scan writes: the entry-point buffer and whether
  /// the 32-bit and the 64-bit view of it have been set.
  datatype EntryPoints = EntryPoints(buffer: seq<uint8>, has32: bool, has64: bool)

  /// Distance between the offsets the scan visits.
  const Stride: nat := 16

  /// `unsigned long` is 64 bits wide on the platforms the model covers.
  const ULongModulus: nat := 0x1_0000_0000_0000_0000

  /// Offsets the scan visits in a dump of `size` bytes: 0, 16, 32, ... while more
  /// than 16 bytes remain from the offset on.
  function ScanSteps(size: nat): nat
  {
    if size <= Stride then 0 else (size - 1) / Stride
  }

  /// What the anchor test reports at the `i`-th visited offset.
  function AnchorAt(dump: seq<uint8>, detect: Detector, i: nat): Anchor
  {
    detect(dump, Stride * i)
  }

  /// The bytes `assign(it, it + size)` copies, cut off at the end of the dump.
  function CopyAt(dump: seq<uint8>, off: nat, size: nat): (c: seq<uint8>)
    requires off <= |dump|
    ensures |c| <= size
    ensures forall i :: 0 <= i < |c| ==> off + i < |dump| && c[i] == dump[off + i]
  {
    dump[off .. if off + size <= |dump| then off + size else |dump|]
  }

  /// Bytes an anchor of kind `a` copies into the entry-point buffer.
  function SizeOf(layout: EntryPointLayout, a: Anchor): nat
  {
    if a == SMBios32 then layout.size32 else layout.size64
  }

  /// One visit at offset `off`: a 32-bit anchor, then a 64-bit anchor, each replaces
  /// the buffer with its own bytes and sets its view.
  function Visit(dump: seq<uint8>, detect: Detector, layout: EntryPointLayout, off: nat, s: EntryPoints): EntryPoints
    requires off < |dump|
  {
    var s' := if detect(dump, off) == SMBios32
      then EntryPoints(CopyAt(dump, off, layout.size32), true, s.has64) else s;
    if detect(dump, off) == SMBios64
      then EntryPoints(CopyAt(dump, off, layout.size64), s'.has32, true) else s'
  }

  /// The state after the first `k` visits, starting from `s0`.
  function Scan(dump: seq<uint8>, detect: Detector, layout: EntryPointLayout, k: nat, s0: EntryPoints): EntryPoints
    requires Stride * k <= |dump|
  {
    if k == 0 then s0
    else Visit(dump, detect, layout, Stride * (k - 1), Scan(dump, detect, layout, k - 1, s0))
  }

  /// Sum of the bytes at the first `k` visited offsets.
  function SampleSum(dump: seq<uint8>, k: nat): nat
    requires Stride * k <= |dump|
  {
    if k == 0 then 0 else SampleSum(dump, k - 1) + dump[Stride * (k - 1)] as nat
  }

  /// The last of the first `k` visits whose offset holds an anchor of either kind.
  function LastMatch(dump: seq<uint8>, detect: Detector, k: nat): (m: Option<nat>)
    ensures m.Some? ==> m.value < k && AnchorAt(dump, detect, m.value) != NoAnchor
    ensures m.Some? ==> forall j :: m.value < j < k ==> AnchorAt(dump, detect, j) == NoAnchor
    ensures m.None? ==> forall j :: 0 <= j < k ==> AnchorAt(dump, detect, j) == NoAnchor
  {
    if k == 0 then None
    else if AnchorAt(dump, detect, k - 1) != NoAnchor then Some(k - 1)
    else LastMatch(dump, detect, k - 1)
  }

  /// The scan visits offset `16 * i` exactly when more than 16 bytes remain from there.
  lemma ScanStepsExact(size: nat, i: nat)
    ensures i < ScanSteps(size) <==> Stride * i + Stride < size
  {
  }

  /// Every visited offset lies inside the dump.
  lemma ScanStepsFit(size: nat)
    ensures Stride * ScanSteps(size) <= size
  {
  }

  /// The running sum gains at most 255 per visit, so it wraps around only for dumps of
  /// more than 2^64 / 255 visited offsets.
  lemma {:induction false} SampleSumBound(dump: seq<uint8>, k: nat)
    requires Stride * k <= |dump|
    ensures SampleSum(dump, k) <= 255 * k
  {
    if k > 0 {
      SampleSumBound(dump, k - 1);
    }
  }

  /// A later anchor match overwrites the buffer: after the scan it holds the bytes of
  /// the last match, or what it held before when nothing matched.
  lemma {:induction false} ScanKeepsLastMatch(dump: seq<uint8>, detect: Detector, layout: EntryPointLayout, k: nat, s0: EntryPoints)
    requires Stride * k <= |dump|
    ensures match LastMatch(dump, detect, k)
      case None => Scan(dump, detect, layout, k, s0).buffer == s0.buffer
      case Some(i) => (Scan(dump, detect, layout, k, s0).buffer
        == CopyAt(dump, Stride * i, SizeOf(layout, AnchorAt(dump, detect, i))))
  {
    if k > 0 && AnchorAt(dump, detect, k - 1) == NoAnchor {
      ScanKeepsLastMatch(dump, detect, layout, k - 1, s0);
    }
  }

  /// The 32-bit view is set after the scan exactly when it was set before or some
  /// visited offset holds a 32-bit anchor; likewise the 64-bit view.
  lemma {:induction false} ScanSetsViews(dump: seq<uint8>, detect: Detector, layout: EntryPointLayout, k: nat, s0: EntryPoints)
    requires Stride * k <= |dump|
    ensures Scan(dump, detect, layout, k, s0).has32
      <==> s0.has32 || exists i :: 0 <= i < k && AnchorAt(dump, detect, i) == SMBios32
    ensures Scan(dump, detect, layout, k, s0).has64
      <==> s0.has64 || exists i :: 0 <= i < k && AnchorAt(dump, detect, i) == SMBios64
  {
    if k > 0 {
      ScanSetsViews(dump, detect, layout, k - 1, s0);
      MatchAmongFirst(dump, detect, k, SMBios32);
      MatchAmongFirst(dump, detect, k, SMBios64);
    }
  }

  /// Some of the first `k` visits finds `kind` exactly when the last of them does or
  /// some of the ones before it does.
  lemma MatchAmongFirst(dump: seq<uint8>, detect: Detector, k: nat, kind: Anchor)
    requires 0 < k
    ensures (exists i :: 0 <= i < k && AnchorAt(dump, detect, i) == kind)
      <==> AnchorAt(dump, detect, k - 1) == kind || exists i :: 0 <= i < k - 1 && AnchorAt(dump, detect, i) == kind
  {
    if exists i :: 0 <= i < k && AnchorAt(dump, detect, i) == kind {
      var i :| 0 <= i < k && AnchorAt(dump, detect, i) == kind;
      if i < k - 1 {
        assert 0 <= i < k - 1 && AnchorAt(dump, detect, i) == kind;
      }
    }
  }

  /// Adding to a running sum kept modulo 2^64 agrees with adding first and wrapping after.
  lemma WrapAdd(a: nat, b: nat)
    ensures (a % ULongModulus + b) % ULongModulus == (a + b) % ULongModulus
  {
  }
}
