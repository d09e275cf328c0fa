/**
  The `SMBios` object of smbios.cpp: where its table comes from, which version it
  reports, and the two walks that turn the table into the header list.

  Addresses are indices into `memory`, the bytes the object can read; address 0
  stands for a null pointer. The platform-native source (sysfs or EFI) is given as
  the values it reports.
 */
module Smbios {
  import opened Wrappers
  import opened Bytes
  import opened DmiTable
  import opened EntryPointScan
  import opened VersionString

  /// What the platform-native source reports: table base (0 when it has no table),
  /// table size, and the version, `SizeMax` standing for "unknown".
  datatype NativeSource = NativeSource(tableBase: nat, tableSize: nat, majorVersion: nat, minorVersion: nat)

  /// `numeric_limits<size_t>::max()` for a 64-bit `size_t`.
  const SizeMax: nat := 0xFFFF_FFFF_FFFF_FFFF

  predicate NativeVersionKnown(native: NativeSource)
  {
    native.majorVersion != SizeMax && native.minorVersion != SizeMax
  }

  /// The value of the first source, in the order given, that can supply one;
  /// `default` when none can.
  function FirstAvailable(sources: seq<Option<nat>>, default: nat): (r: nat)
    ensures (forall i :: 0 <= i < |sources| ==> sources[i].None?) ==> r == default
    ensures forall i ::
      (0 <= i < |sources| && sources[i].Some? && (forall j :: 0 <= j < i ==> sources[j].None?))
      ==> r == sources[i].value
  {
    if sources == [] then default
    else if sources[0].Some? then sources[0].value
    else FirstAvailable(sources[1..], default)
  }

  /// `FirstAvailable` over three sources, spelled out.
  lemma FirstOfThree(a: Option<nat>, b: Option<nat>, c: Option<nat>, default: nat)
    ensures FirstAvailable([a, b, c], default)
      == if a.Some? then a.value else if b.Some? then b.value else if c.Some? then c.value else default
  {
    assert [a, b, c][1..] == [b, c];
    assert [b, c][1..] == [c];
    assert [c][1..] == [];
    assert FirstAvailable([c], default) == if c.Some? then c.value else default;
    assert FirstAvailable([b, c], default) == if b.Some? then b.value else FirstAvailable([c], default);
  }

  class SMBios {
    const native: NativeSource
    const layout: EntryPointLayout
    /// Never written by the code this models; it decides whether entry points are used.
    const checksumValidated: bool

    var entryPointBuffer: seq<uint8>
    /// `smbios_entry32_ != nullptr`: the buffer is viewed as a 32-bit entry point.
    var entry32: bool
    /// `smbios_entry64_ != nullptr`: the buffer is viewed as a 64-bit entry point.
    var entry64: bool
    var majorVersion: nat
    var minorVersion: nat
    var structuresCount: nat
    var headersList: seq<DmiHeader>

    constructor (native: NativeSource, layout: EntryPointLayout, checksumValidated: bool)
      ensures this.native == native && this.layout == layout && this.checksumValidated == checksumValidated
      ensures entryPointBuffer == [] && !entry32 && !entry64
      ensures majorVersion == 0 && minorVersion == 0 && structuresCount == 0 && headersList == []
    {
      this.native := native;
      this.layout := layout;
      this.checksumValidated := checksumValidated;
      entryPointBuffer := [];
      entry32, entry64 := false, false;
      majorVersion, minorVersion := 0, 0;
      structuresCount := 0;
      headersList := [];
    }

    /// The 32-bit entry point is present and validated.
    predicate Uses32()
      reads this`entry32
    {
      entry32 && checksumValidated
    }

    /// The 64-bit entry point is present and validated.
    predicate Uses64()
      reads this`entry64
    {
      entry64 && checksumValidated
    }

    /// The entry-point buffer seen through the 32-bit view; both views look at the one buffer.
    function Entry32(): EntryPoint32
      reads this`entryPointBuffer
    {
      layout.decode32(entryPointBuffer)
    }

    /// The entry-point buffer seen through the 64-bit view.
    function Entry64(): EntryPoint64
      reads this`entryPointBuffer
    {
      layout.decode64(entryPointBuffer)
    }

    function EntryPointState(): EntryPoints
      reads this`entryPointBuffer, this`entry32, this`entry64
    {
      EntryPoints(entryPointBuffer, entry32, entry64)
    }

    /// Table base: the native source's when it has one, else the validated 32-bit entry
    /// point's, else the validated 64-bit entry point's, else null.
    function TableBase(): nat
      reads this`entryPointBuffer, this`entry32, this`entry64
    {
      if native.tableBase != 0 then native.tableBase
      else if Uses32() then Entry32().structureTableAddress as nat
      else if Uses64() then Entry64().structureTableAddress as nat
      else 0
    }

    /// Table size: the native source's when non-zero, else the validated 32-bit entry
    /// point's table length, else the validated 64-bit entry point's maximum size, else 0.
    function TableSize(): nat
      reads this`entryPointBuffer, this`entry32, this`entry64
    {
      if native.tableSize != 0 then native.tableSize
      else if Uses32() then Entry32().structureTableLength as nat
      else if Uses64() then Entry64().maxStructureSize as nat
      else 0
    }

    /// The sources of the table base, in the order they are consulted; a source that
    /// cannot supply a base is `None`.
    function BaseSources(): seq<Option<nat>>
      reads this`entryPointBuffer, this`entry32, this`entry64
    {
      [if native.tableBase != 0 then Some(native.tableBase) else None,
       if Uses32() then Some(Entry32().structureTableAddress as nat) else None,
       if Uses64() then Some(Entry64().structureTableAddress as nat) else None]
    }

    /// The sources of the table size, in the order they are consulted.
    function SizeSources(): seq<Option<nat>>
      reads this`entryPointBuffer, this`entry32, this`entry64
    {
      [if native.tableSize != 0 then Some(native.tableSize) else None,
       if Uses32() then Some(Entry32().structureTableLength as nat) else None,
       if Uses64() then Some(Entry64().maxStructureSize as nat) else None]
    }

    /// The version text: the native source's version when it knows both numbers, else
    /// the version taken from the entry point.
    function SmbiosVersion(): (s: string)
      reads this`majorVersion, this`minorVersion
      ensures NativeVersionKnown(native) ==>
        ParseVersion(s) == Some((native.majorVersion, native.minorVersion))
      ensures !NativeVersionKnown(native) ==>
        ParseVersion(s) == Some((majorVersion, minorVersion))
    {
      if NativeVersionKnown(native) then
        FormatThenParse(native.majorVersion, native.minorVersion);
        FormatVersion(native.majorVersion, native.minorVersion)
      else
        FormatThenParse(majorVersion, minorVersion);
        FormatVersion(majorVersion, minorVersion)
    }

    /// The bytes of the table window in `memory`.
    function TableBytes(memory: seq<uint8>): (t: seq<uint8>)
      reads this`entryPointBuffer, this`entry32, this`entry64
      requires TableBase() + TableSize() <= |memory|
      ensures |t| == TableSize()
    {
      memory[TableBase() .. TableBase() + TableSize()]
    }

    /// The counting pass: one structure per cursor position inside the window, the
    /// cursor moving past each structure's formatted area and string section.
    method CountSmbiosStructures(memory: seq<uint8>)
      requires TableBase() + TableSize() <= |memory|
      modifies this`structuresCount
      ensures structuresCount == Count(TableBytes(memory), 0)
      ensures structuresCount <= (TableSize() + 1) / 2
    {
      var t := TableBytes(memory);
      var offset: nat := 0;
      var count := 0;
      while offset < |t|
        invariant count + Count(t, offset) == Count(t, 0)
        decreases |t| - offset
      {
        ghost var start := offset;
        assert Count(t, start) == 1 + Count(t, Next(t, start));
        if offset + 1 < |t| {
          offset := offset + t[offset + 1] as nat;
        } else {
          // the length byte lies past the window: nothing inside it follows
          offset := |t|;
        }
        count := count + 1;
        offset := SkipStrings(t, offset);
        offset := offset + 2;
        assert offset == Next(t, start);
      }
      structuresCount := count;
      CountAtMostHalf(t, 0);
    }

    /// The materialising pass: counts, then appends the header of every structure up to
    /// the first one that does not fit in the window, is shorter than 4 bytes or is
    /// End-of-Table, reading at most as many as were counted.
    method ReadSmbiosTable(memory: seq<uint8>)
      requires TableBase() + TableSize() <= |memory|
      modifies this`structuresCount, this`headersList
      ensures structuresCount == Count(TableBytes(memory), 0)
      ensures headersList == old(headersList) + Walk(TableBytes(memory), 0, structuresCount)
    {
      CountSmbiosStructures(memory);
      var t := TableBytes(memory);
      AppendHeaders(t, structuresCount);
    }

    /// The loop of the materialising pass over the window `t`: appends the headers of at
    /// most `numberOfStructures` structures, stopping early at a header that does not fit
    /// in the window, is shorter than 4 bytes or is End-of-Table.
    method AppendHeaders(t: seq<uint8>, numberOfStructures: nat)
      modifies this`headersList
      ensures headersList == old(headersList) + Walk(t, 0, numberOfStructures)
    {
      var current: nat := 0;
      var i := 0;
      while i < numberOfStructures && current <= |t|
        invariant i <= numberOfStructures
        invariant old(headersList) + Walk(t, 0, numberOfStructures)
          == headersList + Walk(t, current, numberOfStructures - i)
        decreases numberOfStructures - i
      {
        if current + HeaderSize > |t| {
          // the header would run past the window end
          break;
        }
        var header := HeaderAt(t, current);
        if header.length < MinLength {
          // invalid length: the table is broken from here
          break;
        }
        if header.structureType == EndOfTable {
          break;
        }
        var e := SkipStrings(t, current + header.length as nat);
        WalkAppendsHeader(headersList, t, current, numberOfStructures - i, e);
        headersList := headersList + [header];
        current := e + 2;
        i := i + 1;
      }
      WalkEndsHere(t, current, numberOfStructures - i);
    }

    /// The physical-memory scan: visits offsets 0, 16, 32, ... of the dump while more
    /// than 16 bytes remain, sums the bytes there, and copies every anchor it finds
    /// into the entry-point buffer, setting that anchor's view. Returns the sum.
    method ScanPhysicalMemory(dump: seq<uint8>, detect: Detector) returns (checksum: nat)
      modifies this`entryPointBuffer, this`entry32, this`entry64
      ensures checksum == SampleSum(dump, ScanSteps(|dump|)) % ULongModulus
      ensures EntryPointState() == Scan(dump, detect, layout, ScanSteps(|dump|), old(EntryPointState()))
    {
      checksum := 0;
      var it: nat := 0;
      ghost var k: nat := 0;
      while |dump| - it > Stride
        invariant it == Stride * k <= |dump|
        invariant k <= ScanSteps(|dump|)
        invariant checksum == SampleSum(dump, k) % ULongModulus
        invariant EntryPointState() == Scan(dump, detect, layout, k, old(EntryPointState()))
        decreases |dump| - it
      {
        ScanStepsExact(|dump|, k);
        WrapAdd(SampleSum(dump, k), dump[it] as nat);
        checksum := (checksum + dump[it] as nat) % ULongModulus;
        if detect(dump, it) == SMBios32 {
          entryPointBuffer := CopyAt(dump, it, layout.size32);
          entry32 := true;
        }
        if detect(dump, it) == SMBios64 {
          entryPointBuffer := CopyAt(dump, it, layout.size64);
          entry64 := true;
        }
        it := it + Stride;
        k := k + 1;
      }
      ScanStepsExact(|dump|, k);
    }

    /// Takes the version from the validated entry points, the 64-bit one overriding the
    /// 32-bit one; with neither, the version is left as it was.
    method ExtractDmiVersion()
      modifies this`majorVersion, this`minorVersion
      ensures Uses64() ==> majorVersion == Entry64().majorVersion as nat && minorVersion == Entry64().minorVersion as nat
      ensures !Uses64() && Uses32() ==> majorVersion == Entry32().majorVersion as nat && minorVersion == Entry32().minorVersion as nat
      ensures !Uses64() && !Uses32() ==> majorVersion == old(majorVersion) && minorVersion == old(minorVersion)
    {
      if Uses32() {
        majorVersion := Entry32().majorVersion as nat;
        minorVersion := Entry32().minorVersion as nat;
      }
      if Uses64() {
        majorVersion := Entry64().majorVersion as nat;
        minorVersion := Entry64().minorVersion as nat;
      }
    }
  }

  /// The table base is the first source, in the order native, validated 32-bit entry
  /// point, validated 64-bit entry point, that can supply one, and null when none can.
  lemma TableBaseFollowsPrecedence(smbios: SMBios)
    ensures smbios.TableBase() == FirstAvailable(smbios.BaseSources(), 0)
  {
    var s := smbios.BaseSources();
    FirstOfThree(s[0], s[1], s[2], 0);
  }

  /// The table size follows the same precedence, and is 0 when no source supplies one.
  lemma TableSizeFollowsPrecedence(smbios: SMBios)
    ensures smbios.TableSize() == FirstAvailable(smbios.SizeSources(), 0)
  {
    var s := smbios.SizeSources();
    FirstOfThree(s[0], s[1], s[2], 0);
  }
}
