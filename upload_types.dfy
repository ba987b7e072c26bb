/**
 * The values the file uploader works with: the picked file, the messages it
 * can show, and the error record it keeps (src/components/FileUploader/types.ts
 * and src/components/FileUploader/constants.ts).
 */
module UploadTypes {

  datatype Option<+T> = None | Some(value: T) {
    function GetOr(default: T): T {
      match this
      case Some(v) => v
      case None => default
    }
  }

  /** A browser `File` as far as the uploader looks at it: its name and its size in bytes. */
  datatype File = File(name: string, size: nat)

  /**
   * The messages the uploader can display. `TooLarge` carries the configured
   * limit in megabytes, because the size message is built from it.
   * `ForeignIssue` is the first message of a Zod error that `onFileSelect`
   * itself throws: the handler shows it like one of its own, and its text can
   * be anything.
   */
  datatype Message = InvalidFile | TooLarge(limitMB: nat) | InvalidType | UnknownError | ForeignIssue(text: string)

  /** The `code` of a `FileError`; `CodeInvalidSize` exists in the type but is never produced. */
  datatype ErrorCode = CodeInvalidType | CodeInvalidSize | CodeUnknown

  datatype FileError = FileError(message: Message, code: ErrorCode)

  const InvalidFileText: string := "Archivo inválido"
  const InvalidTypeText: string := "Solo se permiten archivos .gxr"
  const UnknownErrorText: string := "Ha ocurrido un error desconocido"
  /** The size message's fixed part, before the interpolated limit. */
  const TooLargePrefix: string := "El archivo debe ser menor a "
  /** The `FILE_TOO_LARGE` constant; the uploader builds its size message itself instead. */
  const FileTooLargeText: string := "El archivo debe ser menor a 5MB"

  predicate IsDigit(c: char) {
    '0' <= c <= '9'
  }

  function DigitChar(d: nat): (c: char)
    requires d < 10
    ensures IsDigit(c) && (c as int) - ('0' as int) == d
  {
    (('0' as int) + d) as char
  }

  /**
   * The decimal text of a non-negative integer, as JavaScript's template
   * strings render an integral number: digits only, no leading zero.
   */
  function NatToString(n: nat): (s: string)
    ensures |s| >= 1
    ensures forall i :: 0 <= i < |s| ==> IsDigit(s[i])
    ensures s[0] == '0' ==> n == 0 && |s| == 1
    decreases n
  {
    if n < 10 then [DigitChar(n)] else NatToString(n / 10) + [DigitChar(n % 10)]
  }

  /** Reads a string of decimal digits back as a number. */
  function ParseNat(s: string): (n: nat)
    requires forall i :: 0 <= i < |s| ==> IsDigit(s[i])
  {
    if s == [] then 0
    else
      assert IsDigit(s[|s| - 1]);
      ParseNat(s[..|s| - 1]) * 10 + ((s[|s| - 1] as int) - ('0' as int))
  }

  /** Reading the rendered limit back gives the limit: the rendering loses nothing. */
  lemma {:induction false} ParseNatToString(n: nat)
    ensures ParseNat(NatToString(n)) == n
    decreases n
  {
    var s := NatToString(n);
    if n >= 10 {
      ParseNatToString(n / 10);
      assert s[..|s| - 1] == NatToString(n / 10);
    }
  }

  /** Two limits render alike only when they are the same limit. */
  lemma NatToStringInjective(m: nat, n: nat)
    ensures NatToString(m) == NatToString(n) ==> m == n
  {
    ParseNatToString(m);
    ParseNatToString(n);
  }

  /**
   * The text shown in the alert for each message. The uploader's own texts are
   * never empty, and among them exactly the size messages start with the size
   * message's fixed part.
   */
  function Text(m: Message): (t: string)
    ensures !m.ForeignIssue? ==> |t| > 0
    ensures !m.ForeignIssue? ==> (m.TooLarge? <==> |TooLargePrefix| <= |t| && t[..|TooLargePrefix|] == TooLargePrefix)
    ensures m.ForeignIssue? ==> t == m.text
  {
    match m
    case InvalidFile => InvalidFileText
    case TooLarge(limit) =>
      var t := TooLargePrefix + NatToString(limit) + "MB";
      assert t[..|TooLargePrefix|] == TooLargePrefix;
      t
    case InvalidType =>
      assert InvalidTypeText[0] != TooLargePrefix[0];
      InvalidTypeText
    case UnknownError =>
      assert UnknownErrorText[0] != TooLargePrefix[0];
      UnknownErrorText
    case ForeignIssue(text) => text
  }

  /** The size message ends with the configured limit followed by "MB". */
  lemma TooLargeTextNamesLimit(limit: nat)
    ensures var t := Text(TooLarge(limit)); var k := NatToString(limit) + "MB";
      |k| <= |t| && t[|t| - |k|..] == k
  {
    var t := Text(TooLarge(limit));
    var k := NatToString(limit) + "MB";
    assert t == TooLargePrefix + k;
  }

  /**
   * Different messages of the uploader's own show different texts, so the
   * alert tells the user which check failed. (A message thrown by the
   * callback can carry any text, so it is outside this claim.)
   */
  lemma {:induction false} TextInjective(m1: Message, m2: Message)
    ensures !m1.ForeignIssue? && !m2.ForeignIssue? && Text(m1) == Text(m2) ==> m1 == m2
  {
    if !m1.ForeignIssue? && !m2.ForeignIssue? && Text(m1) == Text(m2) {
      if m1.TooLarge? && m2.TooLarge? {
        var k := |TooLargePrefix|;
        var t1, t2 := Text(m1), Text(m2);
        assert NatToString(m1.limitMB) == t1[k..|t1| - 2];
        assert NatToString(m2.limitMB) == t2[k..|t2| - 2];
        NatToStringInjective(m1.limitMB, m2.limitMB);
      } else {
        assert Text(m1)[0] == Text(m2)[0];
        assert Text(m1)[1] == Text(m2)[1];
      }
    }
  }

  /** The unused `FILE_TOO_LARGE` constant is exactly the size message for the default limit of 5MB. */
  lemma FileTooLargeIsDefaultLimitText()
    ensures Text(TooLarge(5)) == FileTooLargeText
  {
    assert NatToString(5) == "5";
  }
}
