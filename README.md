# SMBIOS table walker, modelled in Dafny

This project models the core of the `SMBios` object in `smbios/src/smbios.cpp`.
The object finds the SMBIOS structure table and turns it into an ordered list of
DMI structure headers. The table follows the DMTF SMBIOS Reference Specification
(DSP0134). Each structure has a 4-byte header (type, length, handle). A string
section follows the formatted area and is closed by two zero bytes. Type 127 is
End-of-Table.

Modules:

- `DmiTable` (`dmi_table.dfy`) covers the table window and the two walks over it,
  stated as functions. `StringsEnd` is the forward scan for the closing `00 00`.
  `Next` gives the start of the next structure. `Count` gives what the counting
  pass finds. `Walk` gives what the materialising pass appends. The lemmas cover
  stopping, ordering and bounds.
- `EntryPointScan` (`entry_point_scan.dfy`) covers the 16-byte-stride scan of a
  memory dump for the 32-bit and 64-bit entry points (section 5.2 of DSP0134),
  stated as functions over the dump.
- `VersionString` (`version_string.dfy`) covers the "major.minor" text the version
  is reported as, and reading it back.
- `Smbios` (`smbios.dfy`) holds the class `SMBios`.
  - Its fields are the ones the source updates in place: the entry-point buffer,
    the two entry-point views, the version numbers, the structure count and the
    header list.
  - Its methods are the source's loops, proved against the functions above.
  - The selection rules (`TableBase`, `TableSize`, `SmbiosVersion`) are functions
    reading those fields.
- `Bytes` and `Wrappers` hold the fixed-width integer types and `Option`.

How the source is represented:

- Memory is a parameter `memory: seq<uint8>`, and an address is an index into it.
  Address 0 stands for the null pointer.
- The table is the window `memory[TableBase() .. TableBase() + TableSize()]`. A
  cursor is an offset into that window.
- The platform-native source (sysfs or EFI) enters as the values it reports, in
  `NativeSource`.
- `checksum_validated_` is a constant of the object. The code modelled never
  writes it.

Reading guards. The source reads past the window in three places. The model
bounds-checks each of those reads:

- A header is read at a cursor only when all 4 of its bytes lie inside the window.
  Otherwise the materialising pass stops (line 140).
- A `00 00` pair ends a string section only when both bytes lie inside the window
  (lines 158 and 192).
- In the counting pass, a structure whose length byte lies past the window is still
  counted, and the walk ends there (line 186).

With these guards, the count equals the source's count whatever lies outside the
window. The header list differs from the source's only when a header straddles the
window end: the source would append it with bytes read past the end, and the model
stops.

The walks as the code has them. The two passes do not share stopping rules. The
counting pass stops only at the window end. It counts End-of-Table, anything after
it, and structures with a length below 4. The materialising pass stops at the
first header that is too short or is End-of-Table. It also stops after
`structures_count_` headers. The model follows the code here. `CountNeverCutsWalkShort`
and `WalkEndsAtStop` prove that the count bound never makes the materialising pass
stop earlier than its own rules would.

## Model

| member | source | states |
|---|---|---|
| DmiTable.StringsEnd | smbios/src/smbios.cpp:155-162 | the forward scan stops at or after its start; every position it passes lies in the window and does not start a `00 00` pair; if it stops inside the window, a pair starts there |
| DmiTable.SkipStrings | smbios/src/smbios.cpp:157-161 | the byte-by-byte loop ends exactly where `StringsEnd` says the string section ends |
| DmiTable.Next | smbios/src/smbios.cpp:155-162 | the next structure starts at least 2 bytes, and at least length + 2 bytes, past the current one; if it starts inside the window, a terminator pair lies just before it |
| DmiTable.CountAtMostHalf | smbios/src/smbios.cpp:182-201 | the counting pass finds at most half the remaining bytes, rounded up, so an empty table counts 0 |
| DmiTable.WalkAppendsHeader | smbios/src/smbios.cpp:153-162 | one loop step, which appends the header at the cursor and moves to 2 past the end of its strings, keeps the list it will produce unchanged |
| DmiTable.WalkEndsHere | smbios/src/smbios.cpp:138-151 | with no structures left to read, or at a header that does not fit, is shorter than 4 or is End-of-Table, nothing more is appended |
| DmiTable.WalkHeadersWellFormed | smbios/src/smbios.cpp:140-153 | every appended header was read whole from inside the window at the offset it records, has length at least 4, and is not End-of-Table |
| DmiTable.WalkFollowsStructures | smbios/src/smbios.cpp:136-162 | the first appended header is at the table start, and each later one starts where the previous structure ends |
| DmiTable.WalkPositionsIncrease | smbios/src/smbios.cpp:140-162 | recorded offsets are at least the start and strictly increase; each lies past the previous header's formatted area plus 2 |
| DmiTable.WalkStopsAtFirstBadHeader | smbios/src/smbios.cpp:143-151 | when fewer headers than allowed were appended, the pass stopped at the first header that does not fit, is shorter than 4 or is End-of-Table, and kept all the earlier ones |
| DmiTable.WalkWithinCount | smbios/src/smbios.cpp:135-138 | the materialising pass appends at most as many headers as the counting pass counts |
| DmiTable.CountNeverCutsWalkShort | smbios/src/smbios.cpp:135-138 | any bound at or above the count gives the same headers as the count itself |
| DmiTable.WalkEndsAtStop | smbios/src/smbios.cpp:130-151 | bounded by the count, the materialising pass still ends only at a header that does not fit, is shorter than 4 or is End-of-Table |
| DmiTable.VendorProductStringsEnd | smbios/src/smbios.cpp:155-162 | in a sample table, the string scan of the first structure stops at the pair closing "Product" |
| DmiTable.VendorProductTableWalk | smbios/src/smbios.cpp:128-203 | a type 1 structure followed by End-of-Table counts 2 structures and yields exactly the type 1 header, with its handle read little-endian |
| DmiTable.CorruptFirstHeader | smbios/src/smbios.cpp:143-146 | a first header with length 2 yields no headers at all |
| DmiTable.EmptyTable | smbios/src/smbios.cpp:182-201 | an empty table counts 0 structures and yields no headers |
| EntryPointScan.CopyAt | smbios/src/smbios.cpp:219 | the copied entry-point bytes are the dump's bytes from the anchor offset, at most the structure's size of them |
| EntryPointScan.LastMatch | smbios/src/smbios.cpp:213-231 | the last visited offset holding an anchor: every later visited offset holds none, and when there is none no visited offset holds one |
| EntryPointScan.ScanStepsExact | smbios/src/smbios.cpp:213 | offset 16·i is visited exactly when more than 16 bytes remain from it |
| EntryPointScan.ScanStepsFit | smbios/src/smbios.cpp:213 | every visited offset lies inside the dump |
| EntryPointScan.SampleSumBound | smbios/src/smbios.cpp:208-215 | the sum of the visited bytes grows by at most 255 per visit |
| EntryPointScan.WrapAdd | smbios/src/smbios.cpp:208-215 | adding a byte to a 64-bit running sum that wraps around gives the wrapped full sum |
| EntryPointScan.ScanKeepsLastMatch | smbios/src/smbios.cpp:216-230 | after the scan, the buffer holds the bytes of the last anchor found, or its old contents when none was found |
| EntryPointScan.ScanSetsViews | smbios/src/smbios.cpp:216-230 | the 32-bit view is set after the scan if and only if it was set before or some visited offset holds a 32-bit anchor; likewise the 64-bit view |
| VersionString.Decimal | smbios/src/smbios.cpp:80-83 | a number is written as a non-empty run of decimal digits with no leading zero |
| VersionString.DecimalRoundTrip | smbios/src/smbios.cpp:80-83 | reading a number's decimal text gives the number back |
| VersionString.FormatThenParse | smbios/src/smbios.cpp:80-83 | a "major.minor" text reads back as the pair it was written from |
| Smbios.FirstAvailable | smbios/src/smbios.cpp:93-121 | the result is the value of the first source that has one, or the default when none has |
| Smbios.TableBaseFollowsPrecedence | smbios/src/smbios.cpp:93-107 | the table base is the native base when non-zero, else the validated 32-bit entry's address, else the validated 64-bit entry's address, else null |
| Smbios.TableSizeFollowsPrecedence | smbios/src/smbios.cpp:109-121 | the table size is the native size when non-zero, else the validated 32-bit entry's table length, else the validated 64-bit entry's maximum structure size, else 0 |
| Smbios.SMBios.SmbiosVersion | smbios/src/smbios.cpp:71-86 | the text reads back as the native version when the native source knows both numbers (neither equals the `size_t` maximum), and as the stored version otherwise |
| Smbios.SMBios.TableBytes | smbios/src/smbios.cpp:132-133 | the window is exactly the table size long |
| Smbios.SMBios.CountSmbiosStructures | smbios/src/smbios.cpp:167-203 | the stored count is what the counting pass finds over the window, and is at most half the table size, rounded up |
| Smbios.SMBios.ReadSmbiosTable | smbios/src/smbios.cpp:128-164 | the stored count is refreshed, and the header list is the old list followed by the headers of the materialising pass bounded by that count; earlier entries are unchanged |
| Smbios.SMBios.AppendHeaders | smbios/src/smbios.cpp:136-163 | the header loop appends exactly the materialising pass's headers to the list and changes nothing else |
| Smbios.SMBios.ScanPhysicalMemory | smbios/src/smbios.cpp:205-233 | the returned checksum is the sum of the bytes at exactly the visited offsets, modulo 2^64; the buffer and views are the result of visiting those offsets in order |
| Smbios.SMBios.ExtractDmiVersion | smbios/src/smbios.cpp:235-245 | the validated 64-bit entry's version wins over the validated 32-bit one; with neither, the stored version is unchanged |

## Left out

- The constructor's orchestration (smbios/src/smbios.cpp:21-65) is left out: the native-source probing, `/dev/mem` mapping and dumping are I/O through collaborators whose bodies are not part of this model. The native source's outputs are a parameter, and the dump and memory are `seq<uint8>` parameters.
- `smbios/include/smbios/unix_bios.h` is not part of this model: it only declares the sysfs/EFI probing.
- `display_entry_point` and all console output are not modelled. The scan's checksum, which the source only prints, is returned instead.
- `detect_smbios_anchor` is not modelled: it is a `Detector` function parameter. The entry-point structure sizes and field layouts come from headers that are not part of this model, so they are an `EntryPointLayout` value of the object.
- The modulo-256 entry-point checksum is not modelled, because the code never computes it. `checksumValidated` is an input flag.
- The 64-bit table read (an empty branch at smbios/src/smbios.cpp:60-62) is not modelled.
- Integer-to-pointer casts are not modelled: addresses are naturals indexing `memory`.
- Smbios.SMBios.ReadSmbiosTable: the model stops at a header that straddles the window end, where the source would read past the window and append it.
- Smbios.SMBios.ScanPhysicalMemory: an entry-point copy that would run past the end of the dump is cut off at the dump end, where the source reads past the vector.
- Smbios.SMBios.ScanPhysicalMemory: `unsigned long` is taken as 64 bits wide.
- Smbios.SMBios.ReadSmbiosTable: its own contract ties the list to `Walk`; the well-formedness, ordering and stopping properties of the appended headers are separate lemmas about `Walk`.
- The two entry-point views are flags over the one shared buffer. A view left dangling when a later copy reallocates the buffer is not modelled: the model reads the current buffer.
- The initial field values are declared in a header that is not part of this model. The constructor starts them at 0, empty or false.
- `get_structures_count` and `get_headers_list` are plain field reads, read directly as `structuresCount` and `headersList`.
