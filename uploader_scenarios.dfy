/**
 * The component tests of src/components/FileUploader/FileUploader.test.tsx,
 * replayed against the `FileUploader` class through its contracts only.
 * Each method mounts a component, fires the same events as the test and
 * returns what the test looks at.
 */
module UploaderScenarios {
  import opened UploadTypes
  import opened FileSchema
  import opened Uploader

  /** A valid `.gxr` file is passed to `onFileSelect`. */
  method ValidFileCallsBack() returns (ghost calls: seq<File>, selected: Option<File>)
    ensures calls == [File("test.gxr", 0)]
    ensures selected == Some(File("test.gxr", 0))
  {
    var u := new FileUploader(true, None);
    var f := File("test.gxr", 0);
    assert HasGxrName(f) by { assert f.name[|f.name| - 4..] == ".gxr"; }
    u.HandleFileChange(Some(f), Returns);
    calls := u.calls;
    selected := u.selectedFile;
  }

  /** After removing the selected file nothing is selected and the input's value is empty. */
  method UnselectClearsInput()
    returns (selectedBefore: Option<File>, valueBefore: string, selectedAfter: Option<File>, value: string)
    ensures selectedBefore == Some(File("test.gxr", 0))
    ensures valueBefore == "C:\\fakepath\\test.gxr"
    ensures selectedAfter == None && value == ""
  {
    var u := new FileUploader(false, None);
    var f := File("test.gxr", 0);
    assert HasGxrName(f) by { assert f.name[|f.name| - 4..] == ".gxr"; }
    u.HandleFileChange(Some(f), Returns);
    selectedBefore, valueBefore := u.selectedFile, u.inputValue;
    u.HandleUnselect();
    selectedAfter, value := u.selectedFile, u.inputValue;
  }

  /** A `.txt` file shows the invalid-type message. */
  method NonGxrFileShowsTypeError() returns (alert: Option<string>)
    ensures alert == Some(InvalidTypeText)
  {
    var u := new FileUploader(false, None);
    var f := File("test.txt", 0);
    assert !HasGxrName(f) by { assert f.name[|f.name| - 1] == 't'; }
    u.HandleFileChange(Some(f), Returns);
    alert := if u.error.Some? then Some(Text(u.error.value.message)) else None;
  }

  /** A second valid file replaces the first. */
  method SecondFileReplacesFirst() returns (selected: Option<File>)
    ensures selected == Some(File("second.gxr", 0))
  {
    var u := new FileUploader(false, None);
    var first, second := File("first.gxr", 0), File("second.gxr", 0);
    assert HasGxrName(first) by { assert first.name[|first.name| - 4..] == ".gxr"; }
    assert HasGxrName(second) by { assert second.name[|second.name| - 4..] == ".gxr"; }
    u.HandleFileChange(Some(first), Returns);
    u.HandleFileChange(Some(second), Returns);
    selected := u.selectedFile;
  }

  /** A 6MB `.gxr` file against the default limit shows "El archivo debe ser menor a 5MB". */
  method DefaultLimitMessage() returns (alert: Option<string>)
    ensures alert == Some("El archivo debe ser menor a 5MB")
  {
    var u := new FileUploader(false, None);
    var f := File("large.gxr", 6 * BytesPerMB);
    u.HandleFileChange(Some(f), Returns);
    FileTooLargeIsDefaultLimitText();
    alert := if u.error.Some? then Some(Text(u.error.value.message)) else None;
  }

  /** A 3MB `.gxr` file against a 2MB limit shows "El archivo debe ser menor a 2MB". */
  method CustomLimitMessage() returns (alert: Option<string>)
    ensures alert == Some("El archivo debe ser menor a 2MB")
  {
    var u := new FileUploader(false, Some(2));
    var f := File("large.gxr", 3 * BytesPerMB);
    u.HandleFileChange(Some(f), Returns);
    assert NatToString(2) == "2";
    assert Text(TooLarge(2)) == "El archivo debe ser menor a 2MB";
    alert := if u.error.Some? then Some(Text(u.error.value.message)) else None;
  }

  /** A 7MB `.gxr` file against a 10MB limit is accepted without an alert. */
  method LargerCustomLimitAccepts() returns (alert: Option<FileError>, ghost calls: seq<File>)
    ensures alert == None
    ensures calls == [File("test.gxr", 7 * BytesPerMB)]
  {
    var u := new FileUploader(true, Some(10));
    var f := File("test.gxr", 7 * BytesPerMB);
    assert HasGxrName(f) by { assert f.name[|f.name| - 4..] == ".gxr"; }
    u.HandleFileChange(Some(f), Returns);
    alert := u.error;
    calls := u.calls;
  }

  /** A valid file picked after an invalid one clears the alert. */
  method ValidFileClearsError() returns (alertBefore: Option<string>, alertAfter: Option<FileError>)
    ensures alertBefore == Some(InvalidTypeText)
    ensures alertAfter == None
  {
    var u := new FileUploader(false, None);
    var bad, good := File("test.txt", 0), File("test.gxr", 0);
    assert !HasGxrName(bad) by { assert bad.name[|bad.name| - 1] == 't'; }
    assert HasGxrName(good) by { assert good.name[|good.name| - 4..] == ".gxr"; }
    u.HandleFileChange(Some(bad), Returns);
    alertBefore := if u.error.Some? then Some(Text(u.error.value.message)) else None;
    u.HandleFileChange(Some(good), Returns);
    alertAfter := u.error;
  }
}
