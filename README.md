# File uploader: validation and selection state, in Dafny

This project models the `FileUploader` component of a web front end that lets
a user pick a `.gxr` file. The component does two things:

- **Validation.** A schema checks the picked value in a fixed order. It must be
  a `File`. Its size must be at most `maxFileSize * 1024 * 1024` bytes. Its name
  must end with `.gxr`. The alert shows only the first failing check's message.
  The size message has the configured limit written into its text.
- **Selection state.** Two handlers update the component's state. The state is
  the selected file, the error shown, and the file input's value.
  `handleFileChange` first clears the error. It returns at once when no file was
  picked. Otherwise it validates the file. An accepted file replaces the
  selection and is passed to the optional `onFileSelect` callback. A rejected
  file keeps the old selection and shows the first failing message with code
  `invalid_type`. If the callback throws synchronously, the file stays
  selected. A thrown Zod error shows its own first message with code
  `invalid_type`. Anything else thrown shows the unknown error with code
  `unknown`. `handleUnselect` clears the selection and empties the input. It
  leaves the error as it was.
- **The input's value.** When the user picks a file, the browser sets the file
  input's value to `C:\fakepath\` followed by the file name. A cancelled pick
  sets it to the empty string. The model includes this write so that the
  reset in `handleUnselect` is observable.

Files:

- `upload_types.dfy` (module `UploadTypes`): files, messages, error codes and
  the texts shown. The size limit is written in decimal by `NatToString`, and
  `ParseNat` reads it back.
- `file_schema.dfy` (module `FileSchema`): `MbToBytes`, the ordered list of
  schema issues, and `Validate`.
- `file_uploader.dfy` (module `Uploader`): one handler call (`Apply`), a
  sequence of them (`Run`), the invariant the handlers keep, and the class
  `FileUploader`. The class holds the state in fields, and its methods are
  proved to do what `Apply` says.
- `uploader_scenarios.dfy` (module `UploaderScenarios`): the component tests,
  replayed against the class through its contracts.

The component is simpler than a reader might expect:

- There is no busy flag, and `onFileSelect` is called without being awaited.
- There is no file-name length check. `FILE_CONSTRAINTS.MAX_FILENAME_LENGTH` is
  never read.
- The suffix `.gxr` is written into the component. The configured
  `allowedExtensions` list (which holds `.grx`) is never consulted.
- Removing the file does not clear the error.
- A size failure gets the error code `invalid_type`. The code `invalid_size` is
  declared but never produced.

## Model

| member | source | states |
|---|---|---|
| UploadTypes.NatToString | src/components/FileUploader/FileUploader.tsx:33 | the limit is written as a non-empty string of decimal digits with no leading zero |
| UploadTypes.ParseNatToString | src/components/FileUploader/FileUploader.tsx:33 | reading the written limit back gives the limit, so the text carries the exact configured number |
| UploadTypes.NatToStringInjective | src/components/FileUploader/FileUploader.tsx:33 | two different limits never produce the same text |
| UploadTypes.TooLargeTextNamesLimit | src/components/FileUploader/FileUploader.tsx:33 | the size message ends with the configured limit followed by "MB" |
| UploadTypes.Text | src/components/FileUploader/constants.ts:1-7 | each of the component's own messages has a non-empty text, and a text starts with the size prefix exactly when it is the size message; a message thrown by the callback is shown as its own text |
| UploadTypes.TextInjective | src/components/FileUploader/constants.ts:1-7 | different messages of the component have different texts, so the alert shows which check failed |
| UploadTypes.FileTooLargeIsDefaultLimitText | src/components/FileUploader/constants.ts:3 | the unused `FILE_TOO_LARGE` constant is exactly the size message for the default limit of 5 |
| FileSchema.MbToBytes | src/components/FileUploader/FileUploader.tsx:10 | the byte limit is a whole number of 1024*1024-byte megabytes, and dividing it gives the megabytes back |
| FileSchema.Issues | src/components/FileUploader/FileUploader.tsx:27-38 | a non-file reports only the invalid-file message; a file reports nothing but the size message with the configured limit, exactly when it is over the limit, and the invalid-type message, exactly when its name lacks `.gxr`, each at most once and the size message first |
| FileSchema.Validate | src/components/FileUploader/FileUploader.tsx:27-38 | accepted exactly when the value is a file within the limit whose name ends in `.gxr`; a rejection carries the first failing check's message: invalid file, else the size message with the configured limit, else invalid type |
| FileSchema.NotAFileRejected | src/components/FileUploader/FileUploader.tsx:27-30 | anything that is not a `File` is rejected with the invalid-file message |
| FileSchema.OversizeReportsConfiguredLimit | src/components/FileUploader/FileUploader.tsx:31-38 | an oversized file is rejected with the size message naming the configured limit, even when its name is also wrong |
| FileSchema.WrongSuffixWithinLimitRejected | src/components/FileUploader/FileUploader.tsx:35-38 | a file within the limit whose name does not end in `.gxr` is rejected with the invalid-type message |
| FileSchema.BothFailuresReportedInOrder | src/components/FileUploader/FileUploader.tsx:31-38 | when both checks fail, both messages are reported, the size message first |
| FileSchema.LimitIsInclusive | src/components/FileUploader/FileUploader.tsx:32 | a `.gxr` file of exactly the limit is accepted, and one byte more is rejected for size |
| FileSchema.AcceptanceMonotoneInLimit | src/components/FileUploader/FileUploader.tsx:31-34 | raising the limit never rejects a file that was accepted |
| FileSchema.SuffixCheckIsExact | src/components/FileUploader/FileUploader.tsx:36 | a name ending in `.gxr` passes the suffix check, and one ending in `.GXR` does not |
| Uploader.Apply | src/components/FileUploader/FileUploader.tsx:40-66 | one user action: at most one `onFileSelect` call, always with a picked file that becomes the selection; the selection changes only by a removal or an accepted pick; a pick leaves the browser's value in the input; a removal empties the input and keeps the error |
| Uploader.CancelledPickOnlyClearsError | src/components/FileUploader/FileUploader.tsx:41-46 | a pick with no file clears the error, keeps the selection, leaves an empty input and calls nothing |
| Uploader.AcceptedPickReplacesSelection | src/components/FileUploader/FileUploader.tsx:48-58 | an accepted file becomes the selection, `onFileSelect` (when given) is called once with it, and the error is none unless the callback throws: a Zod error shows its first message with code `invalid_type`, anything else the unknown error with code `unknown` |
| Uploader.RejectedPickKeepsSelection | src/components/FileUploader/FileUploader.tsx:49-54 | a rejected file leaves the selection as it was, calls nothing, and shows the first reported message with code `invalid_type` |
| Uploader.CallbackIffAccepted | src/components/FileUploader/FileUploader.tsx:49-51 | a pick calls `onFileSelect` exactly when the callback was given and the file is accepted |
| Uploader.UnselectKeepsError | src/components/FileUploader/FileUploader.tsx:61-66 | removing the file clears the selection, empties the input's value, keeps the error and calls nothing |
| Uploader.RemoveAfterPickResetsInput | src/components/FileUploader/FileUploader.tsx:61-66 | a picked file leaves a non-empty input value, and removing it afterwards empties the value and the selection |
| Uploader.ApplyKeepsInv | src/components/FileUploader/FileUploader.tsx:40-66 | each handler keeps the invariant: the selected file passed validation; the error is never the invalid-file message and never has code `invalid_size`; a size error names the configured limit; an error thrown by the callback appears only when a callback was given |
| Uploader.RunKeepsInv | src/components/FileUploader/FileUploader.tsx:40-66 | any sequence of picks and removals keeps that invariant and calls back only with accepted files |
| Uploader.RunCallsAreAcceptedPicks | src/components/FileUploader/FileUploader.tsx:48-51 | over any sequence of events, `onFileSelect` is called once per accepted pick, in pick order, and never otherwise |
| Uploader.RunSelectionIsLastAccepted | src/components/FileUploader/FileUploader.tsx:40-66 | after any sequence of events, the selection is the last accepted pick unless a removal came after it |
| Uploader.RunErrorIsLastPicks | src/components/FileUploader/FileUploader.tsx:40-66 | after any sequence of events, the error is the one the last pick left, and later removals keep it |
| Uploader.ReplacementLaw | src/components/FileUploader/FileUploader.test.tsx:57-75 | a valid file picked after another valid file replaces it, with no error and one callback each |
| Uploader.PreservationLaw | src/components/FileUploader/FileUploader.tsx:49-54 | an invalid file picked after a valid one keeps the valid one selected and shows the invalid one's message |
| Uploader.FileUploader.constructor | src/components/FileUploader/FileUploader.tsx:22-25 | the component mounts with no selection, no error and an empty input; `maxFileSize` defaults to 5 |
| Uploader.FileUploader.HandleFileChange | src/components/FileUploader/FileUploader.tsx:40-59 | the new state and the callback log are those of `Apply` for a pick, and the invariant is kept |
| Uploader.FileUploader.HandleUnselect | src/components/FileUploader/FileUploader.tsx:61-66 | the new state is that of `Apply` for a removal, nothing is called, and the invariant is kept |
| UploaderScenarios.ValidFileCallsBack | src/components/FileUploader/FileUploader.test.tsx:13-23 | picking `test.gxr` calls `onFileSelect` with it and selects it |
| UploaderScenarios.UnselectClearsInput | src/components/FileUploader/FileUploader.test.tsx:25-40 | after picking `test.gxr` the input holds `C:\fakepath\test.gxr`; removing the file leaves no selection and an empty input value |
| UploaderScenarios.NonGxrFileShowsTypeError | src/components/FileUploader/FileUploader.test.tsx:43-55 | picking `test.txt` shows the invalid-type text |
| UploaderScenarios.SecondFileReplacesFirst | src/components/FileUploader/FileUploader.test.tsx:57-75 | `second.gxr` picked after `first.gxr` is the selection |
| UploaderScenarios.DefaultLimitMessage | src/components/FileUploader/FileUploader.test.tsx:78-91 | a 6MB file under the default limit shows "El archivo debe ser menor a 5MB" |
| UploaderScenarios.CustomLimitMessage | src/components/FileUploader/FileUploader.test.tsx:93-106 | a 3MB file under a 2MB limit shows "El archivo debe ser menor a 2MB" |
| UploaderScenarios.LargerCustomLimitAccepts | src/components/FileUploader/FileUploader.test.tsx:108-118 | a 7MB file under a 10MB limit shows no alert and is passed to `onFileSelect` |
| UploaderScenarios.ValidFileClearsError | src/components/FileUploader/FileUploader.test.tsx:121-140 | a valid file picked after an invalid one removes the alert |

## Left out

- Rendering (FileUploader.tsx:68-105) is left out beyond the state it reads: labels, CSS classes and the alert element.
- The promise that `onFileSelect` returns is never awaited, so its later settling (a rejection included) is not modelled. Only a synchronous throw is modelled, as the `callback` outcome of a pick: it returns, throws a Zod error with a given first message, or throws something else.
- A thrown Zod error with no issues would make `errors[0].message` itself throw inside the `catch` block. That case is not modelled; a thrown Zod error always carries its first message.
- Uploader.FileUploader.HandleFileChange: the log of `onFileSelect` calls is a ghost field. The component stores no such log; the log records the calls it makes.
- Changing the props between renders is not modelled. `maxFileSize` and the presence of `onFileSelect` are fixed when the component mounts.
- `maxFileSize` is a JavaScript number. The model takes a non-negative integer, so fractional, negative and NaN limits are not covered.
- Writing the limit as text follows JavaScript for non-negative integers only (plain decimal digits). Exponent notation for very large numbers is not covered.
- The model assumes the input element's ref is always attached, so the `if (fileInputRef.current)` guard (FileUploader.tsx:63) always takes its true branch. The remove button only exists while the component is rendered, and so does the input.
- The browser's value for a picked file follows the HTML Living Standard's "filename" value mode (`C:\fakepath\` and the name, on every platform). A browser that departs from it is not covered.
- Zod's internals are not modelled. The schema is the guard followed by the two refinements. A failed guard stops validation. The refinements both run and add their messages in order. Only the first message is observable.
- File names are sequences of Dafny characters. JavaScript's UTF-16 code units are not modelled; `endsWith` compares whole characters.
- React batches state updates within one handler. The model applies the handler's assignments in order, and the resulting state is the same.
- The code has no busy flag, never awaits `onFileSelect` and has no file-name length check, so none of these is modelled.
- UploadTypes.TextInjective: covers only the component's own messages. A message thrown by the callback can have any text, including one of the component's.
- Reading a file into bytes (src/utils/gxr-parser/file-reader.ts, src/utils/fileProcessor.ts) is asynchronous I/O with no logic of its own, and is not part of this model.
- The byte layout of `.gxr` files is not parsed anywhere in the code, so it is not modelled.
- The button component, the container that wires the uploader to the site configuration, and the page are not part of this model. They hold styling, wiring and logging only.
