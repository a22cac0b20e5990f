# EFI inventory probe: model and proofs

The EFI inventory probe (`tools/efi-inventory`) is a freestanding C program that firmware
starts once. It reads firmware-supplied facts it must not trust (a flattened devicetree,
the memory map, a vendor string, two variables, the exception level), writes them as one
JSON object into a 4096-byte buffer, prints that through ConOut and returns. This project
models the probe's code and proves what it is for.

- **Devicetree reader** (`Devicetree`, `TreeReader`, `StructureWalk`, `StructureDefects`,
  `StructureReasons`, `Blob`, `BlobTheorems`, `BlobRefusals`, `DtParser`, `BlobPrinter`).
  `Devicetree` and `Blob.Valid` say what a valid blob is, as an inductive tree and its
  serialisation, without a reader. `DtParser` is the probe's loop over a position, a depth and
  an array of flags, on bounded integers. The chain `ParseDt` = `Parse`, `Parse` observes =
  `Valid`, `Valid` for at most one tree gives soundness, completeness and unambiguity of the
  byte-level code; `StructureReasons` and `BlobRefusals` give each refusal its condition on the
  raw bytes.
- **Memory-map acquisition** (`ByteOrder`, `MemoryMap`, `MapLayout`, `FirmwareModel`,
  `MapProtocol`, `AcquisitionOutcome`). The firmware is an arbitrary answer to each call with a
  ghost trace of the calls; ownership, growth, the attempt bound and the release policy are
  proved over all runs, and the outcome is given by the answers of the first round the map did
  not outgrow. A map is a list of descriptors laid out by the ABI, little-endian digit by digit.
- **Record** (`Json`, `WriterModel`, `RecordText`, `JsonAppend`, `Observations`,
  `ObservationTheorems`, `Record`, `RecordTheorems`, `RecordNames`, `RecordLookup`). The
  truncating writer refines concatenation, the record written is the printed form of a JSON
  value, a JSON reader inverts the printer, following the documented names leads to each fact,
  and the worst case over all inputs is below the buffer size.
- **Whole run** (`Probe`, `EfiMain`, `Displayed`). Chunked output with first-error stop, and the
  documented precedence of return statuses, over whole call traces; `Displayed` relates what a
  reader of the console finds by name to what the firmware supplied.
- **Fixture rewrite** (`FixtureRewrite`). Inserting FDT_NOP keeps the parsed tree.

Fixed-width C integers are newtypes (`Machine.uint8` to `uint64`), so the absence of
wrap-around in the modelled code is part of what is proved, and so is every array index.
`dfyconfig.toml` lists all files.

Where code and documentation differ, the model follows the code:

- The probe's README calls a reportable model printable ASCII; the code reports bytes
  0x01..0x7f (`core.c:91`), escaped in the record. `BlobTheorems.ModelDocumented` gives the
  exact difference, `ControlCharacterReported` an input.
- The README asks only for pairwise disjoint blocks; the code also refuses an empty structure
  or strings block strictly inside the other (`core.c:121`). `BlobTheorems.OverlapExactly`
  gives the exact condition, `BlobPrinter.EmptyBlockRefused` an input. (An empty strings block inside
  the reservation entries is accepted, `core.c:123-124`; it shares no byte with them.)
- `core.h:4-5` says that exceeding a limit is reported `unsupported`, never `malformed`; a
  stride above MAP_LIMIT is `malformed` (`core.c:28`). `MemoryMap.GrowthPolicy` gives the exact
  exception, `StrideOverLimit` an input. For the other limits of the two readers the policy is
  proved over inputs: `BlobTheorems.FirmwareUnsupported`, `UnsupportedExactly` and
  `DeepTreeUnsupported` for size and nesting, `MapProtocol.GrowthStops` and `RetriesExhausted`
  for map size and attempts. A buffer above
  MAP_LIMIT would be `malformed` too (`core.c:36`), but `MapProtocol.BufferAlwaysFits` shows
  that this is never reported. The search limit gives `not_probed` and the two text limits
  `truncated`, as the README documents.
- The final bounds check of `skip_name` (`core.c:84`) can never fail; `DtParser.SkipName`
  asserts this.

## Model

| member | source | states |
|---|---|---|
| TreeReader.ReaderInvertsTokens | tools/efi-inventory/core.c:135-171 | The stack reader ends with the single root `root` on exactly those token sequences that are, NOPs removed, the serialisation of `root`, and only for an unnamed root nested at most 64 deep (both directions). |
| TreeReader.TokensInjective | tools/efi-inventory/core.c:138-171 | Two unnamed, bounded trees with the same tokens are the same tree. |
| TreeReader.FeedTree | tools/efi-inventory/core.c:142-167 | Reading the tokens of a whole subtree anywhere in a blob attaches exactly that subtree to the innermost open node. |
| TreeReader.FeedTrail | tools/efi-inventory/core.c:138-171 | Conversely, whatever was read so far is, NOPs removed, the token trail of the partial tree built: nothing is dropped, duplicated or reordered. |
| TreeReader.FeedIgnoresNops | tools/efi-inventory/core.c:141 | Removing every NOP from a token sequence changes neither acceptance nor the tree built. |
| TreeReader.LastTokenDecidesOrder | tools/efi-inventory/core.c:136-163 | Whether a property may still follow is one bit: the innermost node has a finished subnode exactly when the last token that is not a NOP was an end of node. |
| StructureWalk.WalkSound | tools/efi-inventory/core.c:138-171 | An accepted structure block is the byte serialisation of some token list that spells the tree returned, ending with FDT_END at the block's last word. |
| StructureWalk.WalkComplete | tools/efi-inventory/core.c:138-171 | Every byte serialisation of a token list that builds one tree is accepted with that tree, whatever its padding bytes and name offsets. |
| StructureWalk.WalkDecides | tools/efi-inventory/core.c:134-171 | The block is accepted with `root` if and only if it encodes `root` in the inductive sense of `Devicetree.Encodes`. |
| StructureWalk.OneTree | tools/efi-inventory/core.c:134-171 | A structure block encodes at most one tree. |
| StructureDefects.RefusedExactly | tools/efi-inventory/core.c:138-172 | A structure block is refused with a state and a reason if and only if some token, reached over well-formed tokens that may follow one another, fails for that reason when looked at alone; the state is `unsupported` for the nesting limit and `malformed` for every other reason. |
| StructureReasons.RefusedBecause | tools/efi-inventory/core.c:138-172 | For each reason on its own: a structure block is refused for it if and only if, over well-formed tokens already read, the bytes at hand and the tokens before them are wrong in just that way (for instance `property_after_subnode`: a property word inside a node, value and name in place, and the last token but NOPs ends a node); stated on words, counts and positions, not on a reader's state. |
| StructureDefects.DepthLimitExactly | tools/efi-inventory/core.c:147 | `unsupported` and `depth_limit` if and only if the tokens up to some boundary leave 64 nodes open and a terminated FDT_BEGIN_NODE follows. |
| StructureDefects.DeepTreeRefused | tools/efi-inventory/core.c:147 | Every spelling of an unnamed tree nested deeper than 64, wherever its NOPs and whatever its padding, is refused as `unsupported` for its depth. |
| StructureWalk.NopInsertion | tools/efi-inventory/core.c:141 | One FDT_NOP word inserted at any token boundary reached by the reader leaves its verdict unchanged, be it a tree or a particular refusal. |
| BlobTheorems.RsvWalkDecides | tools/efi-inventory/core.c:125-132 | Scanning the reservation entries up to a limit succeeds with the list `es` if and only if the bytes list exactly `es`, terminated, and end by the limit. |
| BlobTheorems.ReservationSeparation | tools/efi-inventory/core.c:117-127 | Comparing only the first byte of the reservation block and stopping at the limit is equivalent to the whole scanned extent lying inside totalsize and clear of both non-empty blocks. |
| BlobTheorems.OverlapExactly | tools/efi-inventory/core.c:120-121 | A blob whose blocks are aligned and in bounds is refused for overlap if and only if two blocks share a byte (of the reservation block its first), or the structure or strings block is empty and lies strictly inside the other. |
| BlobTheorems.ValidIsObserved | tools/efi-inventory/core.c:98-176 | Every valid blob (header, layout, reservation list, one encoded tree) is observed with its size, versions and the model of its tree. |
| BlobTheorems.ObservedIsValid | tools/efi-inventory/core.c:98-176 | Only valid blobs are observed. |
| BlobTheorems.ObservedExactlyValid | tools/efi-inventory/core.c:98-176 | `observed` if and only if some reservation list and tree make the bytes a valid blob. |
| BlobTheorems.OneMeaning | tools/efi-inventory/core.c:98-176 | A byte string is a valid blob for at most one reservation list and one tree. |
| BlobTheorems.RefusalReportsNothing | tools/efi-inventory/core.c:73-75 | Any other result is `malformed` or `unsupported`, has a reason, and reports no model (`not_probed`, length 0, empty text). |
| BlobTheorems.UnsupportedExactly | tools/efi-inventory/core.h:4-5 | The bounded entry answers `unsupported` if and only if header and magic are there and the version is outside the contract, or totalsize exceeds DT_LIMIT, or the layout passes and the nesting exceeds its limit; the reason given is the first of these. |
| BlobTheorems.FirmwareUnsupported | tools/efi-inventory/core.h:4-5 | The firmware entry answers `unsupported` if and only if the magic is there and totalsize exceeds DT_LIMIT (then with `size_limit` and nothing else), or totalsize is at least 40 and the version is outside the contract or, the layout passing, the nesting exceeds its limit. |
| BlobTheorems.DeepTreeUnsupported | tools/efi-inventory/core.c:147 | A blob whose layout passes and whose structure block spells a tree deeper than 64 is `unsupported` for its depth. |
| BlobTheorems.RefusalNamesDefect | tools/efi-inventory/core.c:138-172 | Once the layout passes, a blob is refused with a reason if and only if a token at fault for that reason is reached; size and versions are kept and no model is reported. |
| StructureReasons.BlobRefusedBecause | tools/efi-inventory/core.c:138-172 | The same for a whole blob whose layout passes: state, reason, size and versions reported are those if and only if its structure block is wrong in that way. |
| BlobRefusals.HeaderReasons | tools/efi-inventory/core.c:98-111 | Each header refusal (`header_truncated`, `magic`, `version`, `size_limit`, `totalsize`, `totalsize_exceeds_span`) is the answer exactly under its own condition on the raw header words, every check before it passed. |
| BlobRefusals.LayoutReasons | tools/efi-inventory/core.c:113-121 | `alignment`, `block_bounds` and `block_overlap` are the answer exactly under their conditions on the raw header words, in this order. |
| BlobRefusals.ReservationReasons | tools/efi-inventory/core.c:125-132 | Scanning the entries: accepted, unterminated, or out of range for the first entry whose end passes 2^64 - 1, each if and only if positions in the bytes say so. |
| BlobRefusals.ReservationRefusals | tools/efi-inventory/core.c:122-132 | `rsvmap_unterminated` and `rsvmap_range` are the answer of a blob exactly when its reservation bytes up to the limit say so, all earlier checks passed. |
| BlobRefusals.FirmwareReasons | tools/efi-inventory/core.c:182-190 | The firmware entry: `null`, `magic`, `size_limit`, `totalsize`, each exactly under its condition on the first two words, and otherwise the answer for the declared bytes. |
| BlobTheorems.Locality | tools/efi-inventory/core.c:108-134 | The result depends on the first totalsize bytes only. |
| BlobTheorems.EntryPointsAgree | tools/efi-inventory/core.c:182-190 | With the right magic and 40 <= totalsize <= DT_LIMIT, the firmware entry point returns what the bounded one returns for every span of at least totalsize bytes. |
| BlobTheorems.ModelMeaning | tools/efi-inventory/core.c:87-97 | The model is `unavailable` if and only if the root has no property `model`, `malformed` with nothing reported when it has two or more, and otherwise the classification of the single value. |
| BlobTheorems.ModelText | tools/efi-inventory/core.c:87-97 | One value: observed or truncated exactly for NUL-terminated text of bytes 0x01..0x7f, malformed exactly when empty or unterminated, unsupported exactly when terminated with another NUL or a byte from 0x80 on; the true length and the true prefix of at most 64 bytes are reported, and nothing of a refused value. |
| BlobRefusals.ModelStates | tools/efi-inventory/core.c:86-97 | Each state of a single value by its bytes: malformed if and only if empty or unterminated; unsupported if and only if terminated with another NUL or a byte from 0x80 on before it; observed or truncated otherwise, by length 64, with true length and prefix. |
| BlobRefusals.ModelReported | tools/efi-inventory/core.c:86-97 | The same of the model reported for a valid blob whose tree has exactly one `model`. |
| BlobTheorems.ModelDocumented | tools/efi-inventory/core.c:88-91 | Every NUL-terminated printable ASCII value is reported; beyond those exactly the NUL-terminated ASCII values with a control character are; and the reported text is printable if and only if the value's first bytes, up to 64, are. |
| BlobTheorems.ControlCharacterReported | tools/efi-inventory/core.c:91 | Witness: a value holding one tab is observed as it stands, though it is not printable. |
| BlobTheorems.ReportedModelFits | tools/efi-inventory/core.c:92-96 | For every input the reported text fits its 64 bytes, is non-NUL ASCII, and the true length fits 32 bits. |
| BlobPrinter.TokensSpelled | tools/efi-inventory/tests.c:520-521 | The printed tokens with their padding and the names collected behind them are a serialisation of exactly those tokens. |
| BlobPrinter.RsvListed | tools/efi-inventory/core.c:125-132 | The printed reservation block lists exactly the given entries, whatever follows it. |
| BlobPrinter.RoundTrip | tools/efi-inventory/tests.c:511-523 | Print then parse: for every bounded tree with NUL-free names, every list of non-overflowing reservations and every placement of NOPs that fits DT_LIMIT, the blob laid out as by the test builder is valid for that tree and observed with its model, size, and versions 17/16. |
| Devicetree.SmallBlock | tools/efi-inventory/core.c:138-171 | Witness: 32 literal bytes, padding included, encode an unnamed root with the property "m" = "a". |
| BlobPrinter.EmptyBlockRefused | tools/efi-inventory/core.c:121 | Witness: a 72-byte blob whose blocks share no byte is refused as `block_overlap`, because its empty strings block lies inside the structure block. |
| DtParser.DtReport.Fail | tools/efi-inventory/core.c:73-75 | Giving up sets state and reason, clears the model, and keeps the size and versions read so far. |
| DtParser.DtReport.TakeModel | tools/efi-inventory/core.c:87-97 | Folding one more root `model` value into the record turns the classification of the values so far into that of the values with this one appended: malformed for a second value, and for a first one malformed exactly without a final NUL, unsupported exactly with one and another NUL or a byte from 0x80 on. |
| DtParser.DtReport.CopyText | tools/efi-inventory/core.c:92-94 | Up to 64 bytes without NUL are copied and terminated inside the 65 bytes of the buffer. |
| DtParser.SkipName | tools/efi-inventory/core.c:78-85 | Zero exactly when no NUL follows inside the block; otherwise the name length and the 4-aligned position after it, which never passes the block's end, so the repeated bounds check cannot fail. |
| DtParser.ScanReservations | tools/efi-inventory/core.c:125-132 | The loop returns the verdict of `RsvWalk`; `limit - rsv` never wraps and decreases. |
| DtParser.RangeOk | tools/efi-inventory/core.c:21 | The 64-bit test holds exactly when the mathematical end `start + length` is representable. |
| DtParser.ReadName | tools/efi-inventory/core.c:142-147 | Refuses a node with the specification's state and reason, or positions the cursor after its name where the node may be entered. |
| DtParser.ReadProperty | tools/efi-inventory/core.c:153-167 | Refuses a property with the specification's reason, or locates name and value inside the blob and the next token, aligned and not past the block's end. |
| DtParser.TracksEnter | tools/efi-inventory/core.c:146-149 | Entering a node keeps the invariant tying depth, root count and the per-depth flags to the open nodes: every proper ancestor flagged, the innermost entry set exactly when the last non-NOP token ended a node, all entries from `depth` up zero. |
| DtParser.TracksLeave | tools/efi-inventory/core.c:150-152 | Leaving a node keeps the same invariant, with the end-of-node bit now set. |
| DtParser.TracksProperty | tools/efi-inventory/core.c:153-167 | A property keeps the invariant, and extends the root's `model` values exactly when the depth is one and the name is `model`. |
| DtParser.OpenNode | tools/efi-inventory/core.c:146-149 | The array update for entering a node establishes the invariant for the deeper state, inside the 64 entries. |
| DtParser.CloseNode | tools/efi-inventory/core.c:150-152 | The array update for leaving a node establishes the invariant for the shallower state. |
| DtParser.ParseStructure | tools/efi-inventory/core.c:134-175 | The token loop over a position, a depth and the flag array leaves in the record exactly the specification's verdict: same state, reason and model, with versions and size kept; bounded integers, so no index or subtraction is out of range. |
| DtParser.CheckLayout | tools/efi-inventory/core.c:112-132 | The alignment, bounds, overlap and reservation checks on 32- and 64-bit values name the same first fault as the unbounded specification. |
| DtParser.ParseDt | tools/efi-inventory/core.c:98-176 | For any span of bytes, or none, the record returned is `Parse` of it: every state, reason, header field and model byte. |
| DtParser.ParseFirmwareDt | tools/efi-inventory/core.c:182-190 | The firmware entry returns `ParseFirmware` of the memory behind the pointer, of which only the declared bytes need exist. |
| FixtureRewrite.WithLeadingNop | tools/efi-inventory/gen_fixtures.py:55-64 | Succeeds exactly when the header is there, the asserted block order holds and the three adjusted words fit 32 bits; the output is then the input with one NOP word before the root and those words raised by 4. |
| FixtureRewrite.NopInvariance | tools/efi-inventory/core.c:141 | Two blobs whose layouts pass, with equal versions and strings, whose structure blocks differ by a NOP at a token boundary reached, give the same result, be it a tree or a refusal, but for the size; their block order is free. |
| FixtureRewrite.RewriteInvariance | tools/efi-inventory/gen_fixtures.py:55-64 | In a blob of the asserted block order that stays within DT_LIMIT, rewriting in place at any token boundary reached changes only the reported size, by 4. |
| FixtureRewrite.LeadingNop | tools/efi-inventory/gen_fixtures.py:55-64 | The rewrite of an accepted blob of the asserted order is accepted if and only if totalsize + 4 is within DT_LIMIT, then with the same versions and model and size + 4; otherwise it is refused as `size_limit`. |
| FixtureRewrite.GeneratorKeepsTree | tools/efi-inventory/gen_fixtures.py:55-64 | For an accepted blob of the asserted order the generator succeeds, and its output is accepted with the same versions and model and size + 4 if and only if that stays within DT_LIMIT; otherwise it is refused as `size_limit`. |
| MemoryMap.ParseMap | tools/efi-inventory/core.c:35-64 | The result is `ReadMap` of the bytes: the checks before any descriptor, in order; then observed exactly when all descriptors are sound, with count = length/stride and the first min(12, count) entries, else the first failing check of the first failing descriptor. `MapLayout` says what that means of the descriptors laid out. |
| MemoryMap.ScanDescriptors | tools/efi-inventory/core.c:43-63 | The loop over the descriptors: all sound with the first twelve kept in order, or the first failing check of the first failing one. |
| MemoryMap.CheckDescriptor | tools/efi-inventory/core.c:50-54 | The wrap-free 64-bit tests name the fault that the same conditions on unbounded numbers name. |
| MemoryMap.ReadsOnce | tools/efi-inventory/core.c:43-63 | That description determines the result: two results fitting the same bytes are equal. |
| MemoryMap.NextCapacity | tools/efi-inventory/core.c:26-34 | On 64-bit values without wrap: grows to required + 2*stride exactly when stride is admissible, required exceeds the capacity and the sum fits MAP_LIMIT; otherwise the reason why not. |
| MemoryMap.GrowthPolicy | tools/efi-inventory/core.c:28-31 | For a consistent answer that does not fit MAP_LIMIT the result is `unsupported`, except that a stride above MAP_LIMIT is reported `malformed`. |
| MemoryMap.StrideOverLimit | tools/efi-inventory/core.c:28 | Witness: a stride one byte above MAP_LIMIT gives `malformed` and `too_small_stride`. |
| ByteOrder.BigWord | tools/efi-inventory/core.c:16-17 | `be32` of four bytes is `v` if and only if byte `i` is the digit of `v` of weight 256^(3 - i); `BigDoubleWord` says so of `be64`. |
| ByteOrder.BigDoubleWord | tools/efi-inventory/core.c:17 | `be64` of eight bytes is `v` if and only if byte `i` is the digit of weight 256^(7 - i). |
| ByteOrder.LittleDoubleWord | tools/efi-inventory/efi.h:37 | A 64-bit field copied from memory is `v` if and only if byte `i` is the digit of `v` of weight 256^i. |
| MapLayout.MapBytesLaidOut | tools/efi-inventory/efi.h:37 | A printer of descriptors from the ABI layout (type at 0, four arbitrary bytes, physical at 8, virtual at 16, pages at 24, attributes at 32, arbitrary bytes up to the stride) lays out its descriptors at multiples of the stride. |
| MapLayout.AnyMapLaidOut | tools/efi-inventory/efi.h:37 | Every buffer of whole strides of at least 40 bytes is such a layout of some descriptors, so the theorems on layouts cover every map. |
| MapLayout.MapMeaning | tools/efi-inventory/core.c:43-63 | For every list of descriptors laid out at a stride of at least 40 that fits: the map is observed if and only if each is page-aligned with its byte count and both its ranges below 2^64, and then type, physical address, pages and attributes of the first twelve are listed; otherwise the reason is the first failing check of the first descriptor failing one. |
| MapLayout.MapRefusals | tools/efi-inventory/core.c:36-42 | Each reason given before any descriptor is looked at is given exactly under its own condition on capacity, length, stride and version, in the order of the checks. |
| MapProtocol.Release | tools/efi-inventory/probe.c:56-61 | One FreePool of the held buffer, counted; the first non-success status is kept; afterwards nothing is held and the buffer's content is unknown. |
| MapProtocol.TryOnce | tools/efi-inventory/probe.c:72-91 | One round against arbitrary answers: the calls made, and either the settled outcome or a larger capacity within the limit after a clean release, as `RoundOf` gives them and `AcquisitionOutcome.OutcomeDecided` spells them out; the map is read from the buffer before its release, after which its content is arbitrary. |
| MapProtocol.AcquireMap | tools/efi-inventory/probe.c:66-93 | For every firmware behaviour the outcome and the trace of calls are those of `Acquisition`, characterised by `AcquisitionOutcome`, and no buffer is held at the end. |
| AcquisitionOutcome.OutcomeDecided | tools/efi-inventory/probe.c:66-93 | Over all firmware: when round `j` is the first not outgrown, its answers give result, raw status, release status, attempts and releases (allocation error or null grant; read error, warning, or too small with a failed release or no admissible growth; success, then what the bytes, size, stride and version of that round amount to), and the calls made are three for each round before it and one or three for it, each with the capacity offered. |
| AcquisitionOutcome.OutcomeExhausted | tools/efi-inventory/probe.c:66-71 | When all five rounds are outgrown: `retry_limit`, with the last status and fifteen calls; without the services: `service_missing` and no call. |
| AcquisitionOutcome.RoundDecides | tools/efi-inventory/probe.c:66-93 | One of the two always applies: some round decides unless all five are outgrown. |
| MapProtocol.Ownership | tools/efi-inventory/probe.c:2-9 | In the trace of every run buffers granted and FreePool calls match one to one, at most one is held at a time, GetMemoryMap and FreePool are called only while one is held, and attempts and releases are counted and at most 5. |
| MapProtocol.ReleasePolicy | tools/efi-inventory/probe.c:56-61 | A FreePool that did not succeed is the last call of the acquisition, and the reported release status is exactly its status, or success. |
| MapProtocol.CapacitiesGrow | tools/efi-inventory/probe.c:69-86 | Capacities requested from AllocatePool strictly increase and never exceed MAP_LIMIT. |
| MapProtocol.BufferAlwaysFits | tools/efi-inventory/core.c:36 | The `buffer` rejection of parse_map is unreachable from acquire_map. |
| MapProtocol.GrowthStops | tools/efi-inventory/core.c:26-34 | Against any firmware the acquisition ends as `unsupported`/`size_limit`, as `malformed`/`too_small_stride` or as `malformed`/`too_small_inconsistent` if and only if the rounds before some round were outgrown and that round, clean but too small, asks for more than MAP_LIMIT with a stride within its bounds, has a stride outside 40..MAP_LIMIT, or reports no more than was offered. |
| MapProtocol.RetriesExhausted | tools/efi-inventory/probe.c:70-86 | Against any firmware the five attempts run out, reported as `unsupported`, if and only if every round is clean and reports a map larger than the buffer the round before it asked for, with the next buffer within MAP_LIMIT. |
| MapProtocol.SlackConverges | tools/efi-inventory/core.c:30-32 | So if any report exceeds the one before by no more than two of its descriptors, the attempts never run out. |
| MapProtocol.SecondAttemptReads | tools/efi-inventory/core.c:30-32 | With conformant firmware whose map plus two descriptors fits the limit and grows by at most that slack, the second attempt reads the map after exactly two allocations and releases; only an empty map or a partial descriptor can still be refused before the descriptors. |
| WriterModel.Writer.Put | tools/efi-inventory/core.c:235-242 | After any sequence of writes the buffer holds the first capacity - 1 bytes of the unbounded concatenation, NUL-terminated, and `truncated` is set exactly when something was dropped. |
| WriterModel.Writer.Unit | tools/efi-inventory/core.c:245-251 | One code unit is appended as its JSON escape. |
| WriterModel.Writer.Escaped | tools/efi-inventory/core.c:252-254 | The bytes of a C string up to its NUL are appended as one JSON string body. |
| WriterModel.Writer.Escaped16 | tools/efi-inventory/core.c:255-257 | The code units are appended as one JSON string body. |
| WriterModel.Writer.Number | tools/efi-inventory/probe.c:21-25 | Appends the decimal numeral of any 64-bit value; the index stays inside the 21 bytes. |
| WriterModel.DecimalBuffer | tools/efi-inventory/probe.c:22-23 | The loop fills exactly the digits of the numeral from the end of the 21 bytes, at most twenty of them. |
| WriterModel.HexBuffer | tools/efi-inventory/probe.c:26-30 | Filling 16 digits from the end gives the quoted 0x form of any 64-bit value inside the 21 bytes. |
| WriterModel.Writer.Hex | tools/efi-inventory/probe.c:26-31 | Appends that quoted form. |
| WriterModel.HexTextReads | tools/efi-inventory/probe.c:26-31 | The hexadecimal text has 18 characters and reads back as the value. |
| WriterModel.EscapeLength | tools/efi-inventory/core.c:243-251 | An escaped text is at most six times as long as its units. |
| WriterModel.EscapeForm | tools/efi-inventory/core.c:243-251 | A quote or backslash follows a backslash, other printable ASCII stands for itself, and every other unit is `\u` and four hexadecimal digits that read as it. |
| Json.EscapeReads | tools/efi-inventory/core.c:243-257 | Reading an escaped text up to the first unescaped quote returns the original units, and that quote is the closing one. |
| Json.AccumulateDecimal | tools/efi-inventory/probe.c:21-25 | A numeral decodes to its value. |
| Json.DecimalHead | tools/efi-inventory/probe.c:21-25 | A numeral consists of digits and starts with 0 only for zero. |
| Json.RoundTrip | tools/efi-inventory/probe.c:129-194 | Any printed value (null, booleans, naturals, strings, arrays, objects, nested) is read back as itself with nothing left over. |
| Json.ObjectNotation | tools/efi-inventory/probe.c:129-194 | An object of two members is written with braces, quoted names, colons and one comma; `ListNotation` and `WordNotation` say the same of arrays and words. |
| JsonAppend.ToPrints | tools/efi-inventory/probe.c:129-194 | Appending a value piece by piece in writing order appends exactly its printed form. |
| RecordText.PlainEscape | tools/efi-inventory/probe.c:32-36 | A fixed key or text of the record stands for itself inside JSON quotes. |
| Observations.ReadVendor | tools/efi-inventory/core.c:219-230 | The bounded loop reports the longest NUL-free prefix of at most 64 units, `truncated` when more follow, and nothing when a surrogate is met in it. |
| Observations.VendorText | tools/efi-inventory/core.c:217-230 | What is reported contains no NUL and no surrogate, is a true prefix of the firmware text, and is all of it when `observed`. |
| ObservationTheorems.VendorReported | tools/efi-inventory/core.c:217-230 | With `n` the position of the first NUL, at most 64: unsupported with nothing reported if and only if a surrogate is among the first `n` units, else those units, `truncated` if and only if a 65th follows; `unavailable` without a text. |
| ObservationTheorems.VariableReported | tools/efi-inventory/core.c:192-209 | Each class of a variable's answer by status, size and value, both directions; the status is always kept. |
| ObservationTheorems.LevelReported | tools/efi-inventory/core.c:210-216 | A level is observed if and only if the register is 4, 8 or 12, and is then a quarter of it. |
| Observations.SearchDt | tools/efi-inventory/probe.c:104-121 | The search returns `FindDt` of the table: the first entry with the devicetree GUID among at most 256, and how many were looked at, as `ObservationTheorems` characterises it; no other entry's pointer is followed. |
| ObservationTheorems.SearchFound | tools/efi-inventory/probe.c:110-117 | When entry `i`, within the first 256 and the table, is the first with the GUID: `searched` is i + 1, a null table is `malformed`/`table_null`, and any other gives the firmware entry's answer for it. |
| ObservationTheorems.SearchMissed | tools/efi-inventory/probe.c:104-121 | In every other case, and these are all: no entries, a null table array, none found in all entries, or none in the first 256 of more; result and `searched` for each. |
| ObservationTheorems.ObservedDt | tools/efi-inventory/probe.c:110-117 | The blob is observed if and only if that entry's table is there and its declared bytes are a valid blob, and then its size, versions and the model of its tree are reported. |
| ObservationTheorems.GuidBytes | tools/efi-inventory/efi.h:112 | The GUID looked for, field by field. |
| Observations.AbsenceConfirmed | tools/efi-inventory/probe.c:104-121 | `unavailable` if and only if there is no table or all entries, at most 256, were looked at and none has the devicetree GUID; `not_probed` if and only if there are more and none of the first 256 has it. |
| Record.Key | tools/efi-inventory/probe.c:32 | Appends a further member name. |
| Record.StatusField | tools/efi-inventory/probe.c:33-36 | Appends a member holding an open object with its status and its detail, null when there is none. |
| Record.VendorSection | tools/efi-inventory/probe.c:135-140 | Appends the vendor object. |
| Record.ImageSection | tools/efi-inventory/probe.c:143-147 | Appends the loaded-image object, base and size null when there is no image. |
| Record.PathSection | tools/efi-inventory/probe.c:148-151 | Appends the device-path object from pointer presence only. |
| Record.EntriesSection | tools/efi-inventory/probe.c:160-168 | The loop appends the array of exactly the listed descriptors in order. |
| Record.MapSection | tools/efi-inventory/probe.c:152-172 | Appends the memory-map object; count, stride, version and omitted are null unless the map is observed. What stands under which name is `RecordLookup.MapTells`. |
| Record.ModelSection | tools/efi-inventory/probe.c:181-185 | Appends the model object, its length and text null unless the tree and the model were observed or truncated. |
| Record.DtSection | tools/efi-inventory/probe.c:173-185 | Appends the devicetree object. |
| Record.VariableSection | tools/efi-inventory/probe.c:123-128 | Appends a variable's object with its raw status. |
| Record.ElSection | tools/efi-inventory/probe.c:188-191 | Appends the exception-level object. |
| Record.BuildRecord | tools/efi-inventory/probe.c:131-194 | Whatever the observations, the writer is asked for exactly the printed form of the record's value. |
| RecordTheorems.RecordDecodes | tools/efi-inventory/probe.c:129-194 | The printed record reads back as the record's value, an object: well formed, and every field recoverable. |
| RecordLookup.RecordTells | tools/efi-inventory/probe.c:129-194 | Following literal member names in the text read back leads to each fact itself, for every section: numbers as numbers, 64-bit values as 18-character texts that read as them, statuses and reasons as their texts, and null exactly where the probe leaves a value out. |
| RecordLookup.MapTells | tools/efi-inventory/probe.c:152-172 | The map section: reason, statuses, attempts, count, stride, version, every listed descriptor's type, address, pages and attributes in order, and the number omitted. |
| RecordLookup.DtTells | tools/efi-inventory/probe.c:173-187 | The devicetree section: entries searched and in all, size and versions, and the model's state, length and text. |
| RecordLookup.VendorTells | tools/efi-inventory/probe.c:135-140 | The vendor section: the units themselves exactly when observed or truncated. |
| RecordLookup.ImageTells | tools/efi-inventory/probe.c:143-147 | The image section: raw status, and base and size exactly when there is an image. |
| RecordLookup.VariableTells | tools/efi-inventory/probe.c:123-128 | A variable's section: raw status, and the value exactly when observed. |
| RecordLookup.ElTells | tools/efi-inventory/probe.c:188-191 | The exception-level section: raw register, and the level exactly when observed. |
| RecordLookup.HeaderTexts | tools/efi-inventory/core.c:100-106 | The documented text of a reason; eighteen further lemmas beside it cover every other reason, `StateTexts` the states. |
| RecordNames.RecordUnique | tools/efi-inventory/probe.c:129-194 | Member names are pairwise distinct in every object of the record, at every depth. |
| RecordTheorems.PrintPrintable | tools/efi-inventory/core.c:243-244 | Every printed value consists of bytes 0x20..0x7e. |
| RecordTheorems.EveryDescriptorCounted | tools/efi-inventory/probe.c:157-171 | In an observed map the listed values are those of the reported descriptors in order, and their number and `omitted` add up to `count`. |
| RecordTheorems.RecordFits | tools/efi-inventory/core.h:16-18 | For all facts within the probe's limits the record is shorter than 4096 bytes. |
| Probe.PrintText | tools/efi-inventory/probe.c:42-53 | For every answer of OutputString the calls made and the status returned are those of `Emit` of the C string in memory, which is scanned to its NUL and no further. |
| Probe.PrintChunk | tools/efi-inventory/probe.c:45-51 | One chunk and one call; unless it failed, what is left to emit has shrunk by just that call. |
| Probe.FillChunk | tools/efi-inventory/probe.c:46-48 | Up to 126 characters are copied and terminated inside the 128 units. |
| Probe.EmitContract | tools/efi-inventory/probe.c:38-53 | One message: chunks are non-empty and at most 126 units, none follows an error, they concatenate to a prefix of the text, and to all of it when no error occurred; an error is the status of the last call. |
| Probe.FullChunks | tools/efi-inventory/probe.c:46 | Every chunk but the last has 126 units. |
| Probe.OutputContract | tools/efi-inventory/probe.c:228-237 | The same for several messages in a row. |
| EfiMain.ObserveImage | tools/efi-inventory/probe.c:210-216 | The interface is taken only when HandleProtocol exists and did not fail. |
| EfiMain.ObserveVariable | tools/efi-inventory/probe.c:96-102 | GetVariable is called at most once and its outputs classified only after it returned. |
| EfiMain.Gather | tools/efi-inventory/probe.c:209-221 | Everything asked of the firmware, in order, each result the one the facts record. |
| EfiMain.Observe | tools/efi-inventory/probe.c:209-227 | After all observations the writer holds the record of the facts seen, and the release status is that of the acquisition. |
| EfiMain.PrintRecord | tools/efi-inventory/probe.c:234-237 | The record buffer, scanned to its NUL, and then the line end. |
| EfiMain.Report | tools/efi-inventory/probe.c:228-237 | Banner, then record and line end, or the marker; the terminated buffer is shown to hold the whole text when nothing was dropped. The return status is output error, else cleanup failure, else truncation, else success. |
| EfiMain.EfiMain | tools/efi-inventory/probe.c:206-238 | No call at all without a table or a console; otherwise, for any record capacity and any firmware answers, the calls and the status are those of `MainRun`, and no buffer is held. |
| EfiMain.FactsBounded | tools/efi-inventory/probe.c:217-223 | Whatever the firmware answers, the facts recorded stay within the probe's limits. |
| EfiMain.NeverTruncated | tools/efi-inventory/probe.c:225-227 | Hence the production record is never truncated, for any table and any answers. |
| EfiMain.RunOwns | tools/efi-inventory/probe.c:2-9 | Over the whole trace of every run pool buffers are freed one to one, at most one is held at a time, at most five are requested, no pool or map call follows an unsuccessful FreePool, and the release status recorded is that of the first unsuccessful FreePool in the trace. |
| EfiMain.CallOrder | tools/efi-inventory/probe.c:206-238 | Every run's calls are HandleProtocol if its service is there, the acquisition, GetVariable of SecureBoot and then of SetupMode if that service is there, and after that only output. |
| EfiMain.RunContract | tools/efi-inventory/probe.c:195-238 | In every run what is handed to OutputString is a prefix of banner and record (or marker), in chunks of 1 to 126 units; no call follows an output error; and the status is that error, else the first unsuccessful FreePool status in the trace, else truncation, else success with everything displayed. |
| EfiMain.SuccessMeansDelivered | tools/efi-inventory/probe.c:202 | With the production capacity the status is success if and only if banner, full record and line end were displayed without error and every FreePool in the trace succeeded. |
| EfiMain.SuccessDecodes | tools/efi-inventory/probe.c:195-238 | After success, the text displayed between banner and line end reads back as the record of the facts seen, each under a name unique in its object. |
| Displayed.SuccessTells | tools/efi-inventory/probe.c:195-238 | After success, following member names in what is displayed leads to every fact seen. |
| Displayed.SuccessShows | tools/efi-inventory/probe.c:206-238 | In terms of the system table and the firmware's answers: after success the display shows the vendor units, both revisions, image base and size, both variables and the level under their names, each null exactly when its answer does not count. |
| Displayed.DevicetreeSeen | tools/efi-inventory/probe.c:218 | What the probe sees of the devicetree: the first match decides, and it is observed if and only if its table is there and valid. |
| Displayed.DevicetreeShown | tools/efi-inventory/probe.c:173-187 | After success, when the first table with the GUID is a valid blob, the display shows its size, its versions and the model of its tree. |
| Displayed.DescriptorsShown | tools/efi-inventory/probe.c:152-172 | After success, when the first round whose buffer the map fits reads acceptable descriptors, the display lists the first twelve of them, field by field, and counts the rest. |
| Displayed.TruncationTold | tools/efi-inventory/probe.c:228-237 | For any record capacity: when everything was displayed, what is displayed reads back as an object of schema 2 whose `record_truncated` says whether the record did not fit, and if it did fit, as the record. |

## Left out

- The firmware's answers are fixed functions of the round, the output call and the variable. The probe is deterministic, so every adaptive firmware behaves on a run like one of these; concurrency with the firmware is not modelled.
- Pointers, calling conventions, structure offsets, GUID and string layout of the UEFI interface (`efi.h`) and the assembly reading CurrentEL: memory handed over by firmware is a byte or unit sequence, absent services are flags, the register value is a parameter.
- Borrowed firmware memory does not change while the probe reads it (a pool buffer does once it is released), and is assumed readable as far as the documented trust boundary says (`probe.c:9-12`); `EfiMain.Borrowable` states how far: the vendor string up to its NUL or 65 units, the first 256 configuration entries or all when fewer, and behind the first of them with the devicetree GUID the 8-byte prefix and then the declared size.
- `memcpy`, `memset`, `guid_equal` and `state_name` of C: byte copies, byte equality and a table of names.
- `parse_dt` is one C function; its loop body and its header checks are separate methods here, as is the copying loop of `take_model`, and the result record is an object the methods update. What the model buffer holds after its terminating NUL is not part of the result.
- MemoryMap.ParseMap: the unused tail of the fixed 12-entry array is not represented; `entries` is the listed part. Descriptor fields are decoded as little-endian, which is the representation of the only target.
- In the writer, `full` is a ghost field, the unbounded text asked for; a C string argument is the sequence of its characters before the NUL.
- Json.RoundTrip: the reader covers the part of RFC 8259 the record uses (no white space, non-negative integers, the escapes the writer emits), so the round trip shows unambiguity and well-formedness in that subset, not acceptance of all JSON.
- `efi_main` is split into the observations and the report; the record capacity is any positive number, as in the builds that shrink it. The image handle and the GUID arguments are not modelled.
- FixtureRewrite.WithLeadingNop: when the structure block starts inside the header or past the end of the data only the body bytes of the output are described; such an input is never an accepted blob.
- The rest of `gen_fixtures.py`, `tests.c`, `check_records.py` and `fixtures.h`: subprocesses, finite cases and data.
- `contrib/`, recipes, porting documents, CI scripts and `pingpong.c`: build plumbing, prose and inline assembly.
