# pe-sieve dump reports in Dafny

This project models the dump-report layer of pe-sieve (`postprocessors/dump_report.h`).
After a scan, pe-sieve records what happened to each in-memory module in a
`ModuleDumpReport`:

- where the module starts and how large it is;
- whether it was dumped, looks like shellcode, or is a corrupt PE;
- the names of the dump, tags and import-list files;
- the dump mode and the import-recovery result.

A `ProcessDumpReport` collects those reports for one process id, in the order they were
appended. It counts them and writes the whole report as a JSON-like document.

The model has three modules:

- `TextFormat` (`text_format.dfy`) holds how values are printed, plus readers for that text:
  - numbers printed in hexadecimal and decimal;
  - booleans printed as `0`/`1`;
  - indentation, file names and escaped paths;
  - member lines, conditional members and separator-joined lists.
- `ModuleReport` (`module_dump_report.dfy`) holds the class `ModuleDumpReport`. Its
  `ToJson` appends the object body to a stream, one member after another. It is proved
  equal to `Body`, a specification built from `Slots()`: the nine members written before
  `status`, each paired with the condition under which it is written. Lemmas about
  `Body` and `Members` state the field rules: order, presence, values and the
  round trip of the start address and size.
- `ProcessReport` (`process_dump_report.dfy`) holds the class `ProcessDumpReport`, with its
  list of module reports as a `seq<ModuleDumpReport>` field. `CountDumped` and
  `ListDumpedModules` keep the loops of the source:
  - `CountDumped` uses a counter;
  - `ListDumpedModules` uses an `isFirst` flag.
  Each method is proved against a specification function (`DumpedCount`, `DumpsList`).
  `ToJson` is proved equal to `Json`. Lemmas relate the counts to the list, state which
  objects the `"dumps"` array holds and read the process id and both counts back.

The stream a `toJSON` writes into is modelled as a string value. The method takes the
string and returns the string extended by what it writes.

## Model

| member | source | states |
|---|---|---|
| ModuleReport.ModuleDumpReport.constructor | postprocessors/dump_report.h:18-24 | start and size are the arguments; `isDumped`, `is_corrupt_pe` and `is_shellcode` are false; every name is empty |
| ModuleReport.ModuleDumpReport.ToJson | postprocessors/dump_report.h:26-62 | the conditional appends write exactly `Body(level)` after the incoming stream, and the result is always true |
| ModuleReport.MembersInOrder | postprocessors/dump_report.h:26-62 | the written members follow the fixed key order with no key twice; `module` (hex start) is first, `module_size` (hex size) second, `status` (0/1 of `isDumped`) last |
| ModuleReport.OptionalMembersRule | postprocessors/dump_report.h:32-51 | `dump_file`, `tags_file`, `imports_file`, `dump_mode` and `imp_rec_result` each appear iff their string is non-empty; the file members hold only the file name |
| ModuleReport.FlagMembersRule | postprocessors/dump_report.h:52-60 | `is_shellcode` and `status` always appear with the 0/1 of their flag; `is_corrupt_pe` appears iff the flag is set, and then as `1` |
| ModuleReport.SlotRule | postprocessors/dump_report.h:26-57 | each member considered before `status` is written iff its condition holds, and with its value |
| ModuleReport.ModuleExtentRoundTrip | postprocessors/dump_report.h:28-31 | reading the quoted hexadecimal `module` and `module_size` back from the body gives `moduleStart` and `moduleSize` |
| ModuleReport.HexMemberRoundTrip | postprocessors/dump_report.h:28-31 | one member holding a quoted hexadecimal number reads back as that number, leaving the rest of the text |
| ModuleReport.BodyEndsWithStatus | postprocessors/dump_report.h:59-61 | the body ends with the status digit itself, with no separator or newline after it |
| ProcessReport.ProcessDumpReport.constructor | postprocessors/dump_report.h:80-83 | a new report holds its pid, no module report, empty directory and minidump path, and is not filled |
| ProcessReport.ProcessDumpReport.AppendReport | postprocessors/dump_report.h:90-94 | null leaves the list unchanged; any other report is added at the end; pid, output directory and minidump path are untouched; a non-null append makes the report filled and adds one to the total |
| ProcessReport.ProcessDumpReport.CountTotal | postprocessors/dump_report.h:96-99 | the total is the number of module reports held, dumped or not, so it is never below the number of dumped reports |
| ProcessReport.ProcessDumpReport.IsFilled | postprocessors/dump_report.h:101-106 | the report is filled iff it holds a module report or the minidump path is non-empty |
| ProcessReport.ProcessDumpReport.CountDumped | postprocessors/dump_report.h:108-119 | the counting loop returns the number of dumped reports, which is at most `countTotal` |
| ProcessReport.DumpedReportsAreDumped | postprocessors/dump_report.h:108-119 | a report is among the dumped reports iff it is in the list and its `isDumped` holds; there are `DumpedCount` of them, at most the list's length |
| ProcessReport.NoneDumpedCountsZero | postprocessors/dump_report.h:108-119 | a list in which no report was dumped counts zero dumped reports |
| ProcessReport.DumpedReportsConcat | postprocessors/dump_report.h:108-119 | filtering two lists one after the other gives the two filtered lists in that order |
| ProcessReport.ProcessDumpReport.ListDumpedModules | postprocessors/dump_report.h:155-181 | the `is_first` loop writes exactly `DumpsList`: the header, the dumped objects joined by `,\n`, a newline iff the list is non-empty, then `]` |
| ProcessReport.DumpedObjectsOfDumpedReports | postprocessors/dump_report.h:162-175 | the objects written are the object texts of the dumped reports, in insertion order, one per dumped report |
| ProcessReport.DumpedReportAppended | postprocessors/dump_report.h:164-173 | a dumped report appended to the list adds its object at the end, preceded by `,\n` iff an object was already written |
| ProcessReport.UndumpedReportInvisible | postprocessors/dump_report.h:164 | appending a report that was not dumped to a non-empty list leaves the array text unchanged |
| ProcessReport.NothingDumpedList | postprocessors/dump_report.h:176-179 | when nothing was dumped the array is empty, yet it still has the newline before `]` whenever the list is non-empty |
| ProcessReport.ProcessDumpReport.ToJson | postprocessors/dump_report.h:121-146 | the appends write exactly `Json(level)`: header members, the `"dumped"` block with `countTotal` and `countDumped`, the dumps array, the closing brace; the result is always true |
| ProcessReport.HeaderLayout | postprocessors/dump_report.h:123-132 | the document opens with `pid` in decimal, then `output_dir` with escaped separators; `minidump_path` is written iff it is non-empty, escaped the same way |
| ProcessReport.PidRoundTrip | postprocessors/dump_report.h:123-125 | reading the first member of the document gives back the pid |
| ProcessReport.SummaryRoundTrip | postprocessors/dump_report.h:134-141 | the `"dumped"` block reads back as the total and dumped counts it was written from, trailing comma included |
| ProcessReport.DecMemberRoundTrip | postprocessors/dump_report.h:137-140 | a member holding a decimal number reads back as that number |
| ProcessReport.ProcessDumpReport.DeleteModuleReports | postprocessors/dump_report.h:183-191 | afterwards the list is empty and `countTotal` is 0; pid, output directory and minidump path are untouched |
| TextFormat.Digits | postprocessors/dump_report.h:29 | a number prints as at least one digit of its base, with no prefix; zero prints as `0` and no other number starts with `0` |
| TextFormat.DigitsRoundTrip | postprocessors/dump_report.h:29 | parsing printed digits in the same base gives back the number |
| TextFormat.DigitsInjective | postprocessors/dump_report.h:29 | two numbers print the same digits only when they are equal |
| TextFormat.BoolTextDigit | postprocessors/dump_report.h:53 | a `bool` printed in decimal is `1` when true and `0` when false |
| TextFormat.FileNameIsLastComponent | postprocessors/dump_report.h:34 | the written file name (assumed model) is a separator-free suffix of the path that is either the whole path or follows a separator |
| TextFormat.EscapeRoundTrip | postprocessors/dump_report.h:128 | un-doubling the backslashes of an escaped path (assumed model) gives back the path |
| TextFormat.WrittenIsFields | postprocessors/dump_report.h:32-57 | writing members one by one, each only under its condition, gives the member lines of exactly the present members, in order |
| TextFormat.FieldsConcat | postprocessors/dump_report.h:28-57 | the member lines of two member lists, one after the other, are the member lines of the joined list |
| TextFormat.EmittedMembers | postprocessors/dump_report.h:32-57 | a member is written iff a slot holding it has its condition true |
| TextFormat.JoinSnoc | postprocessors/dump_report.h:165-167 | adding one more part to a joined list puts the separator only between parts |

## Left out

- `OUT_PADDED` comes from a header that is not part of this model. `Pad` assumes it writes `level` spaces and then the text.
- `peconv::get_file_name` is not part of this model. `FileName` assumes it returns what follows the last `/` or `\`.
- `escape_path_separators` comes from a header that is not part of this model. `EscapePathSeparators` assumes it doubles every backslash.
- The `std::stringstream` is a string value passed in and returned. Stream failure states are not modelled.
- The sticky `std::hex`/`std::dec` state of the stream is not modelled. The base is written out instead: hexadecimal for the address and size, decimal for flags and counts.
- `DWORD`, `ULONGLONG` and `size_t` are naturals below 2^32 or 2^64 (`U32`, `U64`). The counts are unbounded naturals, since a vector's size cannot overflow `size_t`.
- ProcessReport.ProcessDumpReport.DeleteModuleReports: the source deletes each report; Dafny has no explicit deallocation, so the model only clears the list. It also does not model raw-pointer ownership or the destructor, which only calls `deleteModuleReports`.
- `virtual` dispatch on both `toJSON` methods and the `friend class ResultsDumper` are not modelled. No subclass and no friend code is part of this model.
- `getPid` is only a read of the `pid` field, which the model reads directly.
- Whole-document JSON validity is not claimed. The `"dumped"` block ends its last member with `,` (postprocessors/dump_report.h:140), so the document is not valid JSON.
- Reading the dumps array and the counts back from a whole document is not modelled. Only the pid is read back from the document. The counts are read back from the `"dumped"` block, and the start and size from each module body.
- `include/pe_sieve_api.h` declares only the library's exported entry points. It has no logic to model.
- The newline before `]` is written whenever the list holds a report, even when no object was written (postprocessors/dump_report.h:176-178). `NothingDumpedList` states it.
