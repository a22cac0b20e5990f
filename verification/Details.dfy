// The reason codes the probe reports beside a state. `NoDetail` is the null pointer.
module Details {
  datatype Detail =
    | NoDetail
      // devicetree
    | NullBlob | HeaderTruncated | Magic | Version | SizeLimit | TotalSize | TotalSizeExceedsSpan
    | Alignment | BlockBounds | BlockOverlap | RsvmapUnterminated | RsvmapRange
    | MissingEnd | MultipleRoots | NameTruncated | RootName | DepthLimit | UnbalancedEndNode
    | PropertyOutsideRoot | PropertyTruncated | PropertyName | PropertyAfterSubnode
    | UnterminatedNode | TrailingStructure | BadToken
      // configuration table search
    | Absent | ConfigTableNull | TableNull | SearchLimit
      // memory map
    | ServiceMissing | RetryLimit | AllocationFailed | AllocationNull | ReleaseFailed
    | EfiErrorDetail | WarningStatus | TooSmallStride | TooSmallInconsistent
    | BufferDetail | SizeExceedsBuffer | DescriptorVersion | StrideDetail | EmptyMap | PartialDescriptor
    | PagesOverflow | RangeOverflow | UnalignedPhysical
      // variables, vendor, loaded image
    | VariableNotFound | VariableSize | ServiceUnsupported | ValueRange
    | Ucs2Surrogate | NoHandleProtocol
}
