// The fixed texts of the record, all of them plain: each stands for itself inside JSON
// quotes. (One function a text keeps their characters out of every other proof.)
module RecordText {
  import opened Machine
  import opened Details
  import opened Json

  predicate PlainChar(c: char) {
    ' ' <= c < 0x7f as char && c != '\"' && c != '\\'
  }

  predicate Plain(s: string) {
    forall i :: 0 <= i < |s| ==> PlainChar(s[i])
  }

  type PlainText = s: string | Plain(s) && |s| <= 22 witness ""

  function UnitsOf(s: string): seq<uint16> {
    seq(|s|, i requires 0 <= i < |s| => (s[i] as nat % 0x1_0000) as uint16)
  }

  lemma {:induction false} PlainEscape(s: string)
    requires Plain(s)
    ensures Escape(UnitsOf(s)) == s
  {
    if s != "" {
      PlainEscape(s[1..]);
      PlainUnit(s[0]);
      hide EscapeUnit, PlainChar;
      assert UnitsOf(s)[1..] == UnitsOf(s[1..]);
      assert s == [s[0]] + s[1..];
    }
  }

  lemma PlainUnit(c: char)
    requires PlainChar(c)
    ensures EscapeUnit((c as nat % 0x1_0000) as uint16) == [c]
  {
  }

  // -------------------------------------------------------------------- states and reasons

  function StateName(s: State): PlainText {
    match s
    case Observed => "observed"
    case Unavailable => "unavailable"
    case Unsupported => "unsupported"
    case Malformed => "malformed"
    case NotProbed => "not_probed"
    case Truncated => "truncated"
  }

  // The null reason has no text of its own. (In groups: a function with few literals keeps
  // their characters out of every other proof.)
  function DetailText(d: Detail): PlainText {
    match d
    case NoDetail => ""
    case NullBlob | HeaderTruncated | Magic | Version => HeaderText(d)
    case SizeLimit | TotalSize | TotalSizeExceedsSpan => SizeText(d)
    case Alignment | BlockBounds | BlockOverlap => LayoutText(d)
    case RsvmapUnterminated | RsvmapRange | MissingEnd => ScanText(d)
    case MultipleRoots | NameTruncated | RootName => NodeText(d)
    case DepthLimit | UnbalancedEndNode => DepthText(d)
    case PropertyOutsideRoot | PropertyTruncated => PropertyText(d)
    case PropertyName | PropertyAfterSubnode => OrderText(d)
    case UnterminatedNode | TrailingStructure | BadToken => ClosingText(d)
    case Absent | ConfigTableNull | TableNull | SearchLimit => SearchText(d)
    case ServiceMissing | RetryLimit | AllocationFailed => AllocationText(d)
    case AllocationNull | ReleaseFailed => ReleaseText(d)
    case EfiErrorDetail | WarningStatus => ReadText(d)
    case TooSmallStride | TooSmallInconsistent => GrowthText(d)
    case BufferDetail | SizeExceedsBuffer | DescriptorVersion => BufferText(d)
    case StrideDetail | EmptyMap | PartialDescriptor => StrideText(d)
    case PagesOverflow | RangeOverflow | UnalignedPhysical => RangeText(d)
    case VariableNotFound | VariableSize | ServiceUnsupported => VariableText(d)
    case ValueRange | Ucs2Surrogate | NoHandleProtocol => OtherText(d)
  }

  function HeaderText(d: Detail): PlainText {
    if d.NullBlob? then "null"
    else if d.HeaderTruncated? then "header_truncated"
    else if d.Magic? then "magic"
    else "version"
  }

  function SizeText(d: Detail): PlainText {
    if d.SizeLimit? then "size_limit"
    else if d.TotalSize? then "totalsize"
    else "totalsize_exceeds_span"
  }

  function LayoutText(d: Detail): PlainText {
    if d.Alignment? then "alignment"
    else if d.BlockBounds? then "block_bounds"
    else "block_overlap"
  }

  function ScanText(d: Detail): PlainText {
    if d.RsvmapUnterminated? then "rsvmap_unterminated"
    else if d.RsvmapRange? then "rsvmap_range"
    else "missing_end"
  }

  function NodeText(d: Detail): PlainText {
    if d.MultipleRoots? then "multiple_roots"
    else if d.NameTruncated? then "name_truncated"
    else "root_name"
  }

  function DepthText(d: Detail): PlainText {
    if d.DepthLimit? then "depth_limit"
    else "unbalanced_end_node"
  }

  function PropertyText(d: Detail): PlainText {
    if d.PropertyOutsideRoot? then "property_outside_root"
    else "property_truncated"
  }

  function OrderText(d: Detail): PlainText {
    if d.PropertyName? then "property_name"
    else "property_after_subnode"
  }

  function ClosingText(d: Detail): PlainText {
    if d.UnterminatedNode? then "unterminated_node"
    else if d.TrailingStructure? then "trailing_structure"
    else "token"
  }

  function SearchText(d: Detail): PlainText {
    if d.Absent? then "absent"
    else if d.ConfigTableNull? then "config_table_null"
    else if d.TableNull? then "table_null"
    else "search_limit"
  }

  function AllocationText(d: Detail): PlainText {
    if d.ServiceMissing? then "service_missing"
    else if d.RetryLimit? then "retry_limit"
    else "allocation_failed"
  }

  function ReleaseText(d: Detail): PlainText {
    if d.AllocationNull? then "allocation_null"
    else "release_failed"
  }

  function ReadText(d: Detail): PlainText {
    if d.EfiErrorDetail? then "efi_error"
    else "warning_status"
  }

  function GrowthText(d: Detail): PlainText {
    if d.TooSmallStride? then "too_small_stride"
    else "too_small_inconsistent"
  }

  function BufferText(d: Detail): PlainText {
    if d.BufferDetail? then "buffer"
    else if d.SizeExceedsBuffer? then "size_exceeds_buffer"
    else "descriptor_version"
  }

  function StrideText(d: Detail): PlainText {
    if d.StrideDetail? then "stride"
    else if d.EmptyMap? then "empty"
    else "partial_descriptor"
  }

  function RangeText(d: Detail): PlainText {
    if d.PagesOverflow? then "pages_overflow"
    else if d.RangeOverflow? then "range_overflow"
    else "unaligned_physical"
  }

  function VariableText(d: Detail): PlainText {
    if d.VariableNotFound? then "not_found"
    else if d.VariableSize? then "variable_size"
    else "service_unsupported"
  }

  function OtherText(d: Detail): PlainText {
    if d.ValueRange? then "value_range"
    else if d.Ucs2Surrogate? then "ucs2_surrogate"
    else "handle_protocol"
  }

  // -------------------------------------------------------------------- member names and fixed values

  function SchemaName(): PlainText { "schema" }
  function BuildName(): PlainText { "build" }
  function BuildId(): PlainText { "task004-phase-a-v2" }
  function FirmwareVendorName(): PlainText { "firmware_vendor" }
  function UnitsName(): PlainText { "units" }
  function ValueName(): PlainText { "value" }
  function FirmwareRevisionName(): PlainText { "firmware_revision" }
  function UefiRevisionName(): PlainText { "uefi_revision" }
  function StatusName(): PlainText { "status" }
  function DetailName(): PlainText { "detail" }
  function LoadedImageName(): PlainText { "loaded_image" }
  function EfiStatusName(): PlainText { "efi_status" }
  function BaseName(): PlainText { "base" }
  function SizeName(): PlainText { "size" }
  function DevicePathName(): PlainText { "device_path" }
  function RepresentationName(): PlainText { "representation" }
  function PointerPresentOnly(): PlainText { "pointer_present_only" }
  function BootServicesMapName(): PlainText { "boot_services_map" }
  function AttemptsName(): PlainText { "attempts" }
  function ReleaseStatusName(): PlainText { "release_status" }
  function CountName(): PlainText { "count" }
  function DescriptorStrideName(): PlainText { "descriptor_stride" }
  function DescriptorVersionName(): PlainText { "descriptor_version" }
  function DescriptorsName(): PlainText { "descriptors" }
  function TypeName(): PlainText { "type" }
  function PhysicalName(): PlainText { "physical" }
  function PagesName(): PlainText { "pages" }
  function AttributesName(): PlainText { "attributes" }
  function OmittedName(): PlainText { "omitted" }
  function FirmwareDtName(): PlainText { "firmware_dt" }
  function TablesSearchedName(): PlainText { "tables_searched" }
  function TablesTotalName(): PlainText { "tables_total" }
  function VersionName(): PlainText { "version" }
  function LastCompVersionName(): PlainText { "last_comp_version" }
  function ModelName(): PlainText { "model" }
  function LengthName(): PlainText { "length" }
  function SecureBootName(): PlainText { "SecureBoot" }
  function SetupModeName(): PlainText { "SetupMode" }
  function CurrentElName(): PlainText { "CurrentEL" }
  function RawName(): PlainText { "raw" }
  function ReportedLevelName(): PlainText { "reported_level" }
  function ExecutionContextName(): PlainText { "execution_context" }
  function NotEstablished(): PlainText { "not_established" }
  function RecordTruncatedName(): PlainText { "record_truncated" }
}
