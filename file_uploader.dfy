/**
 * The selection controller of the file uploader
 * (src/components/FileUploader/FileUploader.tsx:22-66): the `selectedFile`
 * and `error` state, the file input's value, and the two handlers
 * `handleFileChange` and `handleUnselect`.
 *
 * `Apply` and `Run` describe a handler call and a sequence of them on plain
 * values; the class `FileUploader` holds the state in fields and its methods
 * are proved to do what `Apply` says.
 */
module Uploader {
  import opened UploadTypes
  import opened FileSchema

  /** The limit used when the `maxFileSize` prop is not given. */
  const DefaultMaxFileSizeMB: nat := 5

  /** The props the handlers depend on: the size limit and whether `onFileSelect` was passed. */
  datatype Config = Config(maxFileSizeMB: nat, hasCallback: bool)

  /** The component's state: the selected file, the error shown, and the file input's `value`. */
  datatype State = State(selectedFile: Option<File>, error: Option<FileError>, inputValue: string)

  const Initial: State := State(None, None, "")

  /**
   * What `onFileSelect` does when it is called: it returns (a promise it
   * returns is never awaited), it throws a Zod error whose first issue has the
   * message `firstMessage`, or it throws anything else.
   */
  datatype CallbackResult = Returns | ThrowsZod(firstMessage: string) | ThrowsOther

  /**
   * What the user does: pick in the file dialog (no file when it was
   * cancelled; `callback` says what `onFileSelect` does if it is called), or
   * press the remove button.
   */
  datatype Event = Pick(file: Option<File>, callback: CallbackResult) | Unselect

  /** The prefix a browser puts before the file name in a file input's value. */
  const FakePathPrefix: string := "C:\\fakepath\\"

  /**
   * The file input's `value` once the browser has taken the user's choice, as
   * the HTML Living Standard defines it for `<input type=file>` (value mode
   * "filename"): empty with no file, otherwise the fake path and the file name.
   */
  function BrowserInputValue(file: Option<File>): (v: string)
    ensures v == "" <==> file.None?
    ensures file.Some? ==> |FakePathPrefix| <= |v| && v[|FakePathPrefix|..] == file.value.name
  {
    match file
    case None => ""
    case Some(f) => FakePathPrefix + f.name
  }

  /** A state reached and the `onFileSelect` calls made on the way, in order. */
  datatype Step = Step(state: State, calls: seq<File>)

  const UnknownFileError: FileError := FileError(UnknownError, CodeUnknown)

  /**
   * The error the `catch` block sets when `onFileSelect` throws: a Zod error
   * shows its first message with code `invalid_type`, anything else the
   * unknown error.
   */
  function CallbackError(c: CallbackResult): Option<FileError> {
    match c
    case Returns => None
    case ThrowsZod(text) => Some(FileError(ForeignIssue(text), CodeInvalidType))
    case ThrowsOther => Some(UnknownFileError)
  }

  /**
   * One user action and the handler it triggers. A pick first lets the browser
   * set the input's value, then runs `handleFileChange`; a removal runs
   * `handleUnselect`. At most one `onFileSelect` call is made, always with the
   * file that has just become the selection, and the selection changes only by
   * an accepted pick or a removal.
   */
  function Apply(s: State, cfg: Config, e: Event): (r: Step)
    ensures |r.calls| <= 1
    ensures r.calls != [] ==> e.Pick? && cfg.hasCallback && e.file.Some?
                              && r.calls == [e.file.value] && r.state.selectedFile == e.file
    ensures r.state.selectedFile != s.selectedFile ==>
              e.Unselect? || (e.file.Some? && Validate(AFile(e.file.value), cfg.maxFileSizeMB) == Accepted
                              && r.state.selectedFile == e.file)
    ensures e.Pick? ==> r.state.inputValue == BrowserInputValue(e.file)
    ensures e.Unselect? ==> r.state.error == s.error && r.state.inputValue == ""
  {
    match e
    case Unselect => Step(s.(selectedFile := None, inputValue := ""), [])
    case Pick(file, callback) =>
      var cleared := s.(inputValue := BrowserInputValue(file), error := None);
      match file
      case None => Step(cleared, [])
      case Some(f) =>
        match Validate(AFile(f), cfg.maxFileSizeMB)
        case Rejected(m) => Step(cleared.(error := Some(FileError(m, CodeInvalidType))), [])
        case Accepted =>
          var selected := cleared.(selectedFile := Some(f));
          if !cfg.hasCallback then Step(selected, [])
          else Step(selected.(error := CallbackError(callback)), [f])
  }

  /** A sequence of handler calls, first to last. */
  function Run(s: State, cfg: Config, events: seq<Event>): (r: Step)
    decreases |events|
  {
    if events == [] then Step(s, [])
    else
      var first := Apply(s, cfg, events[0]);
      var rest := Run(first.state, cfg, events[1..]);
      Step(rest.state, first.calls + rest.calls)
  }

  /** An error the handlers can set: never `InvalidFile`, never the `invalid_size` code. */
  predicate ErrorWellFormed(e: FileError, cfg: Config) {
    match e.message
    case InvalidFile => false
    case TooLarge(limit) => limit == cfg.maxFileSizeMB && e.code == CodeInvalidType
    case InvalidType => e.code == CodeInvalidType
    case UnknownError => e.code == CodeUnknown && cfg.hasCallback
    case ForeignIssue(_) => e.code == CodeInvalidType && cfg.hasCallback
  }

  /** What the handlers keep true: a selected file always passed validation, and the error is well formed. */
  predicate Inv(s: State, cfg: Config) {
    && (s.selectedFile.Some? ==> Validate(AFile(s.selectedFile.value), cfg.maxFileSizeMB) == Accepted)
    && (s.error.Some? ==> ErrorWellFormed(s.error.value, cfg))
  }

  // ---------------------------------------------------------------------------
  // One handler call
  // ---------------------------------------------------------------------------

  /**
   * A cancelled pick clears the error and keeps the selection; `onFileSelect`
   * is not called. The browser has emptied the input.
   */
  lemma CancelledPickOnlyClearsError(s: State, cfg: Config, callback: CallbackResult)
    ensures Apply(s, cfg, Pick(None, callback)) == Step(State(s.selectedFile, None, ""), [])
  {
  }

  /**
   * An accepted file replaces the selection, and `onFileSelect`, when given,
   * is called once with it. The error is cleared unless the call throws; the
   * file stays selected either way. A thrown Zod error shows its first message
   * with code `invalid_type`; anything else thrown shows the unknown error.
   */
  lemma AcceptedPickReplacesSelection(s: State, cfg: Config, f: File, callback: CallbackResult)
    requires Validate(AFile(f), cfg.maxFileSizeMB) == Accepted
    ensures Apply(s, cfg, Pick(Some(f), callback)).state.selectedFile == Some(f)
    ensures Apply(s, cfg, Pick(Some(f), callback)).calls == if cfg.hasCallback then [f] else []
    ensures !cfg.hasCallback || callback.Returns? ==> Apply(s, cfg, Pick(Some(f), callback)).state.error == None
    ensures cfg.hasCallback && callback.ThrowsZod? ==>
              Apply(s, cfg, Pick(Some(f), callback)).state.error
              == Some(FileError(ForeignIssue(callback.firstMessage), CodeInvalidType))
    ensures cfg.hasCallback && callback.ThrowsOther? ==>
              Apply(s, cfg, Pick(Some(f), callback)).state.error == Some(FileError(UnknownError, CodeUnknown))
  {
  }

  /**
   * A rejected file leaves the selection as it was, calls nothing, and shows
   * the first failing check's message with code `invalid_type`, the size
   * failure included.
   */
  lemma RejectedPickKeepsSelection(s: State, cfg: Config, f: File, callback: CallbackResult)
    requires Validate(AFile(f), cfg.maxFileSizeMB).Rejected?
    ensures Apply(s, cfg, Pick(Some(f), callback)).state.selectedFile == s.selectedFile
    ensures Apply(s, cfg, Pick(Some(f), callback)).calls == []
    ensures Apply(s, cfg, Pick(Some(f), callback)).state.error
         == Some(FileError(Issues(AFile(f), cfg.maxFileSizeMB)[0], CodeInvalidType))
  {
  }

  /** `onFileSelect` is called by a pick exactly when the callback was given and the file is accepted. */
  lemma CallbackIffAccepted(s: State, cfg: Config, f: File, callback: CallbackResult)
    ensures Apply(s, cfg, Pick(Some(f), callback)).calls != []
        <==> cfg.hasCallback && Validate(AFile(f), cfg.maxFileSizeMB) == Accepted
  {
  }

  /** Removing the file clears the selection and the input value, and leaves the error as it was. */
  lemma UnselectKeepsError(s: State, cfg: Config)
    ensures Apply(s, cfg, Unselect) == Step(State(None, s.error, ""), [])
  {
  }

  /**
   * Removing a picked file empties the input again, so picking the same file
   * once more changes the value and fires a new change event.
   */
  lemma RemoveAfterPickResetsInput(s: State, cfg: Config, f: File, callback: CallbackResult)
    ensures Apply(s, cfg, Pick(Some(f), callback)).state.inputValue != ""
    ensures Run(s, cfg, [Pick(Some(f), callback), Unselect]).state.inputValue == ""
    ensures Run(s, cfg, [Pick(Some(f), callback), Unselect]).state.selectedFile == None
  {
    RunPair(s, cfg, Pick(Some(f), callback), Unselect);
  }

  /** Every handler call keeps the invariant. */
  lemma ApplyKeepsInv(s: State, cfg: Config, e: Event)
    requires Inv(s, cfg)
    ensures Inv(Apply(s, cfg, e).state, cfg)
    ensures forall f :: f in Apply(s, cfg, e).calls ==> Validate(AFile(f), cfg.maxFileSizeMB) == Accepted
  {
  }

  // ---------------------------------------------------------------------------
  // Sequences of handler calls
  // ---------------------------------------------------------------------------

  /** Any sequence of handler calls keeps the invariant, and calls back only with accepted files. */
  lemma {:induction false} RunKeepsInv(s: State, cfg: Config, events: seq<Event>)
    requires Inv(s, cfg)
    ensures Inv(Run(s, cfg, events).state, cfg)
    ensures forall f :: f in Run(s, cfg, events).calls ==> Validate(AFile(f), cfg.maxFileSizeMB) == Accepted
    decreases |events|
  {
    if events != [] {
      ApplyKeepsInv(s, cfg, events[0]);
      RunKeepsInv(Apply(s, cfg, events[0]).state, cfg, events[1..]);
    }
  }

  /** Running one more event is applying it to where the run ended. */
  lemma {:induction false} RunSnoc(s: State, cfg: Config, events: seq<Event>, e: Event)
    ensures Run(s, cfg, events + [e]).state == Apply(Run(s, cfg, events).state, cfg, e).state
    ensures Run(s, cfg, events + [e]).calls == Run(s, cfg, events).calls + Apply(Run(s, cfg, events).state, cfg, e).calls
    decreases |events|
  {
    if events == [] {
      assert [e][1..] == [];
      var only := Apply(s, cfg, e);
      assert Run(s, cfg, [e]) == Step(only.state, only.calls + []);
      assert only.calls + [] == [] + only.calls;
    } else {
      var first := Apply(s, cfg, events[0]);
      assert (events + [e])[0] == events[0];
      assert (events + [e])[1..] == events[1..] + [e];
      RunSnoc(first.state, cfg, events[1..], e);
      var rest := Run(first.state, cfg, events[1..]);
      var last := Apply(rest.state, cfg, e);
      assert Run(s, cfg, events) == Step(rest.state, first.calls + rest.calls);
      assert Run(s, cfg, events + [e]) == Step(last.state, first.calls + (rest.calls + last.calls));
      assert first.calls + (rest.calls + last.calls) == (first.calls + rest.calls) + last.calls;
    }
  }

  /** The accepted picked files, in order: the files `onFileSelect` must be called with. */
  function AcceptedPicks(events: seq<Event>, maxFileSizeMB: nat): (files: seq<File>) {
    if events == [] then []
    else
      var e := events[0];
      var head := if e.Pick? && e.file.Some? && Validate(AFile(e.file.value), maxFileSizeMB) == Accepted
                  then [e.file.value] else [];
      head + AcceptedPicks(events[1..], maxFileSizeMB)
  }

  /**
   * Over any sequence of events, `onFileSelect` is called once per accepted
   * pick, with that file, in pick order, and never otherwise.
   */
  lemma {:induction false} RunCallsAreAcceptedPicks(s: State, cfg: Config, events: seq<Event>)
    ensures Run(s, cfg, events).calls == if cfg.hasCallback then AcceptedPicks(events, cfg.maxFileSizeMB) else []
    decreases |events|
  {
    if events != [] {
      RunCallsAreAcceptedPicks(Apply(s, cfg, events[0]).state, cfg, events[1..]);
    }
  }

  /**
   * The selection after a sequence of events, read from the end: the most
   * recent accepted pick, unless a removal came after it.
   */
  function LastSelection(initial: Option<File>, events: seq<Event>, maxFileSizeMB: nat): (selected: Option<File>)
    decreases |events|
  {
    if events == [] then initial
    else
      var e := events[|events| - 1];
      if e.Unselect? then None
      else if e.file.Some? && Validate(AFile(e.file.value), maxFileSizeMB) == Accepted then e.file
      else LastSelection(initial, events[..|events| - 1], maxFileSizeMB)
  }

  /** The selection after any run is the last accepted pick not followed by a removal. */
  lemma {:induction false} RunSelectionIsLastAccepted(s: State, cfg: Config, events: seq<Event>)
    ensures Run(s, cfg, events).state.selectedFile == LastSelection(s.selectedFile, events, cfg.maxFileSizeMB)
    decreases |events|
  {
    if events != [] {
      var prefix := events[..|events| - 1];
      var e := events[|events| - 1];
      assert events == prefix + [e];
      RunSnoc(s, cfg, prefix, e);
      RunSelectionIsLastAccepted(s, cfg, prefix);
    }
  }

  /** The error a pick leaves, stated from the schema's list of issues. */
  function PickError(file: Option<File>, callback: CallbackResult, cfg: Config): (error: Option<FileError>) {
    if file.None? then None
    else
      var issues := Issues(AFile(file.value), cfg.maxFileSizeMB);
      if issues != [] then Some(FileError(issues[0], CodeInvalidType))
      else if cfg.hasCallback then CallbackError(callback)
      else None
  }

  /** The error after a sequence of events, read from the end: set by the last pick; removals do not touch it. */
  function LastPickError(initial: Option<FileError>, events: seq<Event>, cfg: Config): (error: Option<FileError>)
    decreases |events|
  {
    if events == [] then initial
    else
      var e := events[|events| - 1];
      if e.Unselect? then LastPickError(initial, events[..|events| - 1], cfg)
      else PickError(e.file, e.callback, cfg)
  }

  /** The error shown after any run is the one the last pick left; later removals keep it. */
  lemma {:induction false} RunErrorIsLastPicks(s: State, cfg: Config, events: seq<Event>)
    ensures Run(s, cfg, events).state.error == LastPickError(s.error, events, cfg)
    decreases |events|
  {
    if events != [] {
      var prefix := events[..|events| - 1];
      var e := events[|events| - 1];
      assert events == prefix + [e];
      RunSnoc(s, cfg, prefix, e);
      RunErrorIsLastPicks(s, cfg, prefix);
    }
  }

  /** A run of two events is the second applied after the first. */
  lemma RunPair(s: State, cfg: Config, e1: Event, e2: Event)
    ensures Run(s, cfg, [e1, e2]).state == Apply(Apply(s, cfg, e1).state, cfg, e2).state
    ensures Run(s, cfg, [e1, e2]).calls == Apply(s, cfg, e1).calls + Apply(Apply(s, cfg, e1).state, cfg, e2).calls
  {
    var mid := Apply(s, cfg, e1).state;
    assert [e1, e2][1..] == [e2];
    assert [e2][1..] == [];
    assert Run(mid, cfg, [e2]) == Step(Apply(mid, cfg, e2).state, Apply(mid, cfg, e2).calls + []);
  }

  /** Selecting a valid file B after a valid file A shows B and no error (when the callback returns normally). */
  lemma ReplacementLaw(s: State, cfg: Config, a: File, b: File)
    requires Validate(AFile(a), cfg.maxFileSizeMB) == Accepted
    requires Validate(AFile(b), cfg.maxFileSizeMB) == Accepted
    ensures Run(s, cfg, [Pick(Some(a), Returns), Pick(Some(b), Returns)]).state.selectedFile == Some(b)
    ensures Run(s, cfg, [Pick(Some(a), Returns), Pick(Some(b), Returns)]).state.error == None
    ensures Run(s, cfg, [Pick(Some(a), Returns), Pick(Some(b), Returns)]).calls
         == if cfg.hasCallback then [a, b] else []
  {
    RunPair(s, cfg, Pick(Some(a), Returns), Pick(Some(b), Returns));
  }

  /** Selecting an invalid file C after a valid file A keeps A selected and shows C's first failure. */
  lemma PreservationLaw(s: State, cfg: Config, a: File, c: File)
    requires Validate(AFile(a), cfg.maxFileSizeMB) == Accepted
    requires Validate(AFile(c), cfg.maxFileSizeMB).Rejected?
    ensures Run(s, cfg, [Pick(Some(a), Returns), Pick(Some(c), Returns)]).state.selectedFile == Some(a)
    ensures Run(s, cfg, [Pick(Some(a), Returns), Pick(Some(c), Returns)]).state.error
         == Some(FileError(Validate(AFile(c), cfg.maxFileSizeMB).message, CodeInvalidType))
  {
    RunPair(s, cfg, Pick(Some(a), Returns), Pick(Some(c), Returns));
  }

  // ---------------------------------------------------------------------------
  // The component
  // ---------------------------------------------------------------------------

  class FileUploader {
    const maxFileSize: nat
    const hasCallback: bool
    var selectedFile: Option<File>
    var error: Option<FileError>
    var inputValue: string
    /** Every call made to `onFileSelect`, in order. */
    ghost var calls: seq<File>

    function Props(): Config {
      Config(maxFileSize, hasCallback)
    }

    function Snapshot(): State
      reads this
    {
      State(selectedFile, error, inputValue)
    }

    ghost predicate Valid()
      reads this
    {
      && Inv(Snapshot(), Props())
      && forall f :: f in calls ==> Validate(AFile(f), maxFileSize) == Accepted
    }

    /** Mounting the component: nothing selected, no error, an empty input; `maxFileSize` defaults to 5. */
    constructor (onFileSelectGiven: bool, maxFileSizeProp: Option<nat>)
      ensures maxFileSize == maxFileSizeProp.GetOr(DefaultMaxFileSizeMB)
      ensures hasCallback == onFileSelectGiven
      ensures Snapshot() == Initial && calls == []
      ensures Valid()
    {
      maxFileSize := maxFileSizeProp.GetOr(DefaultMaxFileSizeMB);
      hasCallback := onFileSelectGiven;
      selectedFile := None;
      error := None;
      inputValue := "";
      calls := [];
    }

    /**
     * The user picked `file` (none when the dialog was cancelled): the browser
     * sets the input's value, then `handleFileChange` runs. `callback` says
     * what `onFileSelect` does if it is called.
     */
    method HandleFileChange(file: Option<File>, callback: CallbackResult)
      requires Valid()
      modifies this
      ensures Valid()
      ensures Snapshot() == Apply(old(Snapshot()), Props(), Pick(file, callback)).state
      ensures calls == old(calls) + Apply(old(Snapshot()), Props(), Pick(file, callback)).calls
    {
      ghost var before := Snapshot();
      inputValue := BrowserInputValue(file);
      error := None;
      if file.None? {
        return;
      }
      var f := file.value;
      var outcome := Validate(AFile(f), maxFileSize);
      match outcome {
        case Accepted =>
          selectedFile := Some(f);
          if hasCallback {
            calls := calls + [f];
            match callback {
              case Returns =>
              case ThrowsZod(text) => error := Some(FileError(ForeignIssue(text), CodeInvalidType));
              case ThrowsOther => error := Some(UnknownFileError);
            }
          }
        case Rejected(m) =>
          error := Some(FileError(m, CodeInvalidType));
      }
      ApplyKeepsInv(before, Props(), Pick(file, callback));
    }

    /** `handleUnselect`: the remove button was pressed. */
    method HandleUnselect()
      requires Valid()
      modifies this
      ensures Valid()
      ensures Snapshot() == Apply(old(Snapshot()), Props(), Unselect).state
      ensures calls == old(calls)
    {
      selectedFile := None;
      inputValue := "";
    }
  }
}
