/**
 * The validation schema of the file uploader
 * (src/components/FileUploader/FileUploader.tsx:9-38): a type guard
 * ("is a File") followed by two refinements, the size limit and the `.gxr`
 * suffix. The guard stops validation when it fails; the two refinements both
 * run and each adds its message, in order. The uploader shows only the first
 * message.
 */
module FileSchema {
  import opened UploadTypes

  /** The literal suffix a file name must end with. */
  const GxrSuffix: string := ".gxr"

  /** Bytes in a megabyte as the uploader counts them. */
  const BytesPerMB: nat := 1024 * 1024

  /** The value handed to the schema: a `File`, or anything else. */
  datatype Candidate = AFile(file: File) | NotAFile

  /** `mbToBytes`: the size limit in bytes. */
  function MbToBytes(mb: nat): (bytes: nat)
    ensures bytes == mb * BytesPerMB
    ensures bytes / BytesPerMB == mb && bytes % BytesPerMB == 0
  {
    mb * 1024 * 1024
  }

  /** `String.prototype.endsWith`: the last `|suffix|` characters are `suffix`. */
  predicate EndsWith(s: string, suffix: string) {
    |suffix| <= |s| && s[|s| - |suffix|..] == suffix
  }

  predicate WithinLimit(f: File, maxFileSizeMB: nat) {
    f.size <= MbToBytes(maxFileSizeMB)
  }

  predicate HasGxrName(f: File) {
    EndsWith(f.name, GxrSuffix)
  }

  /** All messages the schema reports for a candidate, in the order the checks run. */
  function Issues(c: Candidate, maxFileSizeMB: nat): (issues: seq<Message>)
    ensures c.NotAFile? ==> issues == [InvalidFile]
    ensures c.AFile? ==> InvalidFile !in issues && |issues| <= 2
    ensures c.AFile? ==> (TooLarge(maxFileSizeMB) in issues <==> !WithinLimit(c.file, maxFileSizeMB))
    ensures c.AFile? ==> (InvalidType in issues <==> !HasGxrName(c.file))
    ensures c.AFile? ==> forall m :: m in issues ==> m == TooLarge(maxFileSizeMB) || m == InvalidType
    ensures c.AFile? ==> |issues| == (if WithinLimit(c.file, maxFileSizeMB) then 0 else 1)
                                     + (if HasGxrName(c.file) then 0 else 1)
    ensures c.AFile? && |issues| == 2 ==> issues[0] == TooLarge(maxFileSizeMB)
  {
    match c
    case NotAFile => [InvalidFile]
    case AFile(f) =>
      (if WithinLimit(f, maxFileSizeMB) then [] else [TooLarge(maxFileSizeMB)])
      + (if HasGxrName(f) then [] else [InvalidType])
  }

  datatype Outcome = Accepted | Rejected(message: Message)

  /**
   * What parsing with the schema yields for the uploader: acceptance, or the
   * first reported message (`err.errors[0]`).
   */
  function Validate(c: Candidate, maxFileSizeMB: nat): (r: Outcome)
    ensures r.Accepted? <==> c.AFile? && WithinLimit(c.file, maxFileSizeMB) && HasGxrName(c.file)
    ensures r.Rejected? ==> r.message in Issues(c, maxFileSizeMB)
    ensures r.Rejected? ==> r.message == if c.NotAFile? then InvalidFile
                                         else if !WithinLimit(c.file, maxFileSizeMB) then TooLarge(maxFileSizeMB)
                                         else InvalidType
  {
    var issues := Issues(c, maxFileSizeMB);
    if issues == [] then Accepted else Rejected(issues[0])
  }

  /** Anything that is not a `File` is rejected with the invalid-file message and nothing else is checked. */
  lemma NotAFileRejected(maxFileSizeMB: nat)
    ensures Validate(NotAFile, maxFileSizeMB) == Rejected(InvalidFile)
  {
  }

  /**
   * An oversized file is rejected with the size message naming the configured
   * limit, whatever its name: the size check runs before the suffix check.
   */
  lemma OversizeReportsConfiguredLimit(f: File, maxFileSizeMB: nat)
    requires f.size > maxFileSizeMB * BytesPerMB
    ensures Validate(AFile(f), maxFileSizeMB) == Rejected(TooLarge(maxFileSizeMB))
    ensures Text(Validate(AFile(f), maxFileSizeMB).message)
         == TooLargePrefix + NatToString(maxFileSizeMB) + "MB"
  {
  }

  /** A file within the limit whose name does not end in `.gxr` is rejected with the invalid-type message. */
  lemma WrongSuffixWithinLimitRejected(f: File, maxFileSizeMB: nat)
    requires f.size <= maxFileSizeMB * BytesPerMB
    requires !EndsWith(f.name, GxrSuffix)
    ensures Validate(AFile(f), maxFileSizeMB) == Rejected(InvalidType)
  {
  }

  /** When both refinements fail, both messages are reported, the size message first. */
  lemma BothFailuresReportedInOrder(f: File, maxFileSizeMB: nat)
    requires !WithinLimit(f, maxFileSizeMB) && !HasGxrName(f)
    ensures Issues(AFile(f), maxFileSizeMB) == [TooLarge(maxFileSizeMB), InvalidType]
  {
  }

  /** The limit is inclusive: a file of exactly the limit is accepted when its name ends in `.gxr`. */
  lemma LimitIsInclusive(name: string, maxFileSizeMB: nat)
    requires EndsWith(name, GxrSuffix)
    ensures Validate(AFile(File(name, maxFileSizeMB * BytesPerMB)), maxFileSizeMB) == Accepted
    ensures Validate(AFile(File(name, maxFileSizeMB * BytesPerMB + 1)), maxFileSizeMB)
         == Rejected(TooLarge(maxFileSizeMB))
  {
  }

  /** Raising the limit never turns an accepted file into a rejected one. */
  lemma AcceptanceMonotoneInLimit(f: File, m1: nat, m2: nat)
    requires m1 <= m2
    requires Validate(AFile(f), m1) == Accepted
    ensures Validate(AFile(f), m2) == Accepted
  {
    assert m1 * BytesPerMB <= m2 * BytesPerMB;
  }

  /** The suffix check is exact and case-sensitive: appending `.gxr` passes it, an upper-case suffix does not. */
  lemma SuffixCheckIsExact(stem: string)
    ensures HasGxrName(File(stem + GxrSuffix, 0))
    ensures !HasGxrName(File(stem + ".GXR", 0))
  {
    var n := stem + GxrSuffix;
    assert n[|n| - 4..] == GxrSuffix;
    var u := stem + ".GXR";
    assert u[|u| - 1] == 'R';
  }
}
