# MSAPI in Dafny

A model of the machines of MSAPI whose correctness is a statement about whole runs or about a way
there and back, and proofs of those statements.

| files | what they model |
|---|---|
| `StreamProtocol`, `Distributor`, `StreamRuns`, `StreamAgreement`, `StreamCrossing`, `StreamCloses`, `StreamExamples`, `StreamComposition` | the object stream protocol: one distributor with its three containers, its clients, and the two channels between them |
| `JsonText`, `JsonParser`, `JsonRoundTrip`, `JsonBrackets`, `JsonCuts`, `JsonContainers`, `JsonStrings`, `JsonSpaces`, `JsonTokens`, `JsonScanner` | the JSON printer and parser |
| `Cells`, `Table`, `TableJson` | tables in memory, their binary form, and the way from JSON rows into a table and back |
| `Standard` | standard messages: typed values under keys, nested tables among them |
| `Calendar`, `CalendarText` | the calendar of `Timer`, and timers as text |
| `Utf8`, `Base64` | the two text codecs (section 3 of RFC 3629, section 4 of RFC 4648) |
| `Grid` | the rows of the manager's grid: places, sorting, adding, updating, removing |
| `Server` | the connection books of the server |
| `Parameters` | application parameters, their limits, and the running state |
| `Options`, `Lists` | shared vocabulary |

Code that changes state is modelled as classes and loops and proved against functions; what the
source promises is proved about these functions and about the invariants the classes keep. A
`char` of the JSON and table files is one C++ `char`. Integers are unbounded; the widths of the
source are written out wherever a value can leave them (`Cells.Wrap`, `TimerDates.U16`,
`TimerText.Field`, the word sizes of the codecs, which are bit vectors).

## Where the code and its promises part

The model follows the code. Where a natural promise does not hold, the exact condition is proved.

- The scans for the end of a nested JSON container count brackets of the container's own kind
  without looking at quotes (`library/source/help/json.cpp:312-333`, 348-363, 700-720, 732-748). A
  container with printable parts that such a scan ends too early is not read back, and takes the
  object or array around it along. One that is left open is read back only by accident, and only in
  the last place: an object always, because a brace too many at its end goes unnoticed; an array
  only inside an array, and only if it ends with a number, which takes the bracket behind it along
  (`JsonContainers.MemberDecides`, `JsonContainers.ItemDecides`). So for a string in an array in an
  object balanced square brackets are exactly what the round trip needs, and for a string in an
  object in an object balanced braces, or if nothing follows, braces that never close too much
  (`JsonContainers.BracketsDecide`, `JsonContainers.BracesDecide`).
- A string survives JSON exactly if it is raw, its quotes and a final backslash escaped: the printer
  writes strings as they are (`JsonStrings.RawDecides`).
- `Table::UpdateCell` moves the kept size by the size of the optional wrapper when it changes
  whether an optional is there (`library/source/help/table.h:588-599`), but the layout has one flag
  and the payload. The kept size stays the size of the layout exactly for updates that keep the
  presence (`UpdateAccounting.AccountingExact`).
- A JSON number that does not fit its column is stored wrapped, so rows come back exactly if they
  match the columns within range (`TableJson.RowsComeBack`).
- `Timer::Create` accepts 29 February in every year, because `library/source/help/time.cpp:573`
  passes the year where the leap flag is expected, a minute of 60, and years up to 65535, though
  timers end on 9 April 2262 (`library/source/help/time.h:55`, `TimerDates.LastTimer`). What it
  accepts comes back exactly if it is a date of the calendar and a time of the clock whose
  nanoseconds fit in 63 bits (`TimerDates.DateComesBack`). A 29 February too many is 1 March
  (`TimerDates.MissingLeapDay`); a minute of 60 is the first minute of the next hour, after 23
  o'clock of the next day (`TimerDates.MinuteSixty`); 1 January 2300 is a negative timer
  (`TimerDates.LaterIsAccepted`).
- `Base64Decode` looks up the last two characters of its input without checking them
  (`library/source/help/helper.h:664-682`): any character is accepted there
  (`Base64.DecodesExactly`).
- Client and distributor may disagree for good: the client Opened, the distributor without an open
  registration for it. This takes a close, or a new filter, that crosses Opened: the distributor
  reads it while the client is Opened by what it has still to read, and no later request of the
  client is answered. In every run, whatever the client does and whenever, once both channels are
  empty the two sides agree exactly if no close has crossed (`StreamCrossing.AgreementExact`); so a
  client that never closes an active stream always agrees, however early it opens again
  (`StreamCrossing.OpeningsDoNoHarm`). After a close while Pending the client is left Opened exactly
  if the close finds the stream open, or what an earlier crossing close has left
  (`StreamCloses.PendingClose`). `StreamExamples.ImpatientCloseDisagrees` is a run with such a
  close; in `StreamExamples.HastyOpenDisagrees` the client closes only when it is Opened, but by a
  message of an earlier stream. A client that closes only when it is not Pending, and opens again
  only when its last stream has ended and been read, agrees with its distributor, is never told of
  an issue, and is at rest exactly when it is not registered (`StreamAgreement.Agreement`).
- An outgoing connection may be opened under the id of an accepted one, which
  `library/source/server/server.cpp:510-517` does not look for. The books stay in agreement exactly
  if no accepted connection has the id of a connection that is entered
  (`ServerModel.Server.OpenConnect`).
- Registering an invalid parameter, merging an invalid value outside a modify request, or setting a
  custom error, while the application runs leaves it running with an error. The contracts of
  `RegisterParameter`, `MergeParameter` and `SetCustomError` say exactly when this happens.

## Model

| member | source | states |
|---|---|---|
| `DistributorModel.Distributor.constructor` | library/source/protocol/object.h:714-721 | a new distributor has consistent containers and no registration |
| `DistributorModel.Distributor.RemoveInformationAboutStream` | library/source/protocol/object.h:1130-1154 | the key leaves all three containers, the hash index among them, and every other key stays as it is |
| `DistributorModel.Distributor.SendFailed` | library/source/protocol/object.h:1065-1078 | a registered key is told Failed with the issue and forgotten; an unknown key is told nothing |
| `DistributorModel.Distributor.LetsThrough` | library/source/protocol/object.h:1093-1117 | an object passes exactly if the key has a filter that declares no objects or that the application's predicate accepts it for |
| `DistributorModel.Distributor.SendToStream` | library/source/protocol/object.h:1093-1123 | an old object goes to the key, in one message, exactly if its filter declares no objects or the predicate accepts it |
| `DistributorModel.Distributor.SendOldObjects` | library/source/protocol/object.h:921-931 | of the old objects the key gets those that pass, in order |
| `DistributorContainers.OfferedInOrder` | library/source/protocol/object.h:921-931 | the old objects that an opening sends are those in certain ascending places: all of them for an empty filter, else exactly those that the predicate accepts |
| `DistributorModel.Distributor.Open` | library/source/protocol/object.h:1032-1063 | Opened, the passing old objects and Done are sent; a Snapshot stream is then Closed and forgotten, any other enters the index once |
| `DistributorModel.Distributor.CollectFilter` | library/source/protocol/object.h:805-837 | a new filter registers the key, and opens it at once if it declares no objects; a second one fails the key |
| `DistributorModel.Distributor.CollectFilterObject` | library/source/protocol/object.h:839-896 | an object is added to the key's filter; the declared number opens the stream, one more fails it |
| `DistributorModel.Distributor.Collect` | library/source/protocol/object.h:798-905 | one message does to its key what the per-key protocol says, nothing while paused, and nothing to any other key; the containers stay consistent |
| `DistributorModel.Distributor.StreamExternalAction` | library/source/protocol/object.h:759-779 | Closed from a client ends its registration and sends nothing; any other state changes nothing |
| `DistributorModel.Distributor.SendNewObject` | library/source/protocol/object.h:962-1016 | through the index, a key gets the object exactly once if it holds all declared filter objects, is not a Snapshot, is for the object's class and its filter is empty or accepted by the predicate; every other key gets nothing |
| `DistributorModel.Distributor.Stop` | library/source/protocol/object.h:732-752 | every open stream is told Failed once and forgotten; streams that wait for filter objects stay |
| `DistributorContainers.IndexErase` | library/source/protocol/object.h:1142-1153 | erasing a key from the equal range of its hash leaves an index that lists each other open stream once |
| `DistributorContainers.IndexInsert` | library/source/protocol/object.h:1046-1050 | entering an opened stream keeps the index without duplicates and complete |
| `DistributorScans.IndexIsScan` | library/source/protocol/object.h:962-1016 | delivery by the index is delivery by a scan over all registrations |
| `DistributorScans.NewObjectReaches` | library/source/protocol/object.h:962-1016 | what a new object is to each key, by its filter's objects, kind, class and the predicate's answer |
| `DistributorScans.Stopped` | library/source/protocol/object.h:732-752 | reporting and forgetting the open streams in any order is one stop event for every key |
| `StreamRuns.MessageOrder` | library/source/protocol/object.h:732-905 | in every history the messages of a registration are Opened, objects, Done, then Closed for a Snapshot or objects and at most one Failed, or a single Failed if it never opened; nothing is sent without a registration |
| `StreamRuns.StepOrder` | library/source/protocol/object.h:1032-1078 | one event keeps the messages of a key within that order |
| `StreamRuns.WaitsForObjects` | library/source/protocol/object.h:839-896 | for every registration of a key, the first or a later one, amid the events of all other keys: before the declared number of objects has arrived the key is sent nothing and its filter is the client's list so far, in order |
| `StreamRuns.OpensAtLastObject` | library/source/protocol/object.h:805-896 | for every registration of a key, the declared last object, or the filter itself if it declares none, opens the stream, with the filter equal to the client's list; before it nothing was sent |
| `StreamRuns.StepFollows` | library/source/protocol/object.h:714-905 | every history of the containers is, for each key, a run of the per-key protocol |
| `StreamClient.Stream.ChangeFilter` | library/source/protocol/object.h:1203-1215 | a new filter clears the snapshot flag and closes an active stream |
| `StreamClient.Stream.OpenStream` | library/source/protocol/object.h:1222-1246 | the filter and then its objects in order are sent, unless there is no connection, no filter or an active stream |
| `StreamClient.Stream.CloseStream` | library/source/protocol/object.h:1251-1262 | an active stream becomes Closed and says so, any other stays |
| `StreamClient.Stream.CollectStreamState` | library/source/protocol/object.cpp:101-127 | Done sets the snapshot flag only, any other state becomes the client's |
| `StreamAgreement.Agreement` | library/source/protocol/object.h:732-905 | in every run of a client that closes only when it is not Pending, or when nothing is on its way, and opens again only when its last stream has ended and been read: no issue is ever reported, and whenever both channels are empty it is Opened exactly when its registration is open and at rest exactly when it has none |
| `StreamAgreement.ActKeepsInv` | library/source/protocol/object.h:1203-1261 | every step of client, channel or distributor keeps the invariant behind the agreement, a close that crosses live objects or a Failed included |
| `StreamAgreement.EndedMayOpen` | library/source/protocol/object.h:1222-1246 | a client that never opened or was told Failed may open again at once, any other at rest when nothing is on its way |
| `StreamAgreement.AbsorbOpening` | library/source/protocol/object.cpp:185-193 | what an opening makes of its client once it has read all of it |
| `StreamCrossing.AgreementExact` | library/source/protocol/object.h:732-905 | in every run over two FIFO channels, of any client, with any other clients and any interruptions: whenever both channels are empty, client and distributor agree on whether the stream is open exactly if no close has crossed; an open registration always has an Opened client |
| `StreamCrossing.StepTold` | library/source/protocol/object.h:732-905 | every step keeps: while no close is on its way, what the client will be agrees with its registration unless a close has crossed |
| `StreamCrossing.Answer` | library/source/protocol/object.h:798-905 | whatever a request is answered with tells the client whether it has an open registration, and without an answer that does not change |
| `StreamCrossing.OpeningsDoNoHarm` | library/source/protocol/object.h:1222-1246 | a client that never closes or changes the filter of an active stream agrees, however early it opens again |
| `StreamCloses.CloseSettles` | library/source/protocol/object.h:1203-1262 | after the close of an active client, from any state of the two sides, the registration is gone once both channels are empty, and the client is left Opened exactly if the close was read while it was to be Opened |
| `StreamCloses.PendingClose` | library/source/protocol/object.h:1203-1262 | in any run, after a close while Pending, the registration is gone once both channels are empty; the client is left Opened exactly if the close found the stream open or what an earlier crossing close had left, and has ended otherwise |
| `StreamCloses.PatientPendingClose` | library/source/protocol/object.h:1203-1262 | for a client that was patient before, it only matters whether the close found the stream open |
| `StreamCloses.PendingCloseAtOnce` | library/source/protocol/object.h:1203-1262 | from any state with all requests read, if the close is read next, the client is left Opened exactly if what it had still to read would have opened it |
| `StreamCloses.CrossedReads` | library/source/protocol/object.h:1251-1262 | a close read while the client is to be Opened leaves it, with everything read, Opened without a registration |
| `StreamExamples.ImpatientCloseDisagrees` | library/source/protocol/object.h:1251-1262 | a run in which a close while Pending makes the two sides disagree |
| `StreamExamples.HastyOpenDisagrees` | library/source/protocol/object.h:1222-1262 | a run of a client that closes only when it is Opened, by a message of an earlier stream, and disagrees |
| `StreamComposition.ContainersAgree` | library/source/protocol/object.h:714-905 | in a history of the three containers that holds any client's events among all others, they hold the registration of the two-channel system and have sent what the client has read and has still to read; once both channels are empty they agree with the client exactly if no close has crossed |
| `StreamComposition.Play` | library/source/protocol/object.h:714-905 | every history can be played on a new distributor by its operations, and its containers then follow the per-key runs |
| `StreamComposition.PerformAll` | library/source/protocol/object.h:714-1262 | a client stream and a distributor, run by their own operations over two queues, end where the system ends and agree as it does |
| `JsonText.LessIsStrict` | library/source/help/json.cpp:459-474 | the order of keys in an object is strict |
| `JsonText.DecimalOfDigits` | library/source/help/json.cpp:827-868 | printed decimal digits spell the number |
| `JsonRoundTrip.ReadsKey` | library/source/help/json.cpp:62-94 | a raw key is read up to its closing quote, escapes included |
| `JsonRoundTrip.ReadsString` | library/source/help/json.cpp:98-116 | a raw string is read up to its closing quote and stored under its key |
| `JsonRoundTrip.ReadsNumber` | library/source/help/json.cpp:184-262 | a printed integer is read back with its sign, whatever ends it |
| `JsonRoundTrip.ParsesObject` | library/source/help/json.cpp:35-396 | the text of a printable object parses to that object, valid |
| `JsonRoundTrip.ParsesArray` | library/source/help/json.cpp:486-778 | the text of a printable array parses to that array, valid |
| `JsonRoundTrip.ParsesRootArray` | library/source/help/json.cpp:35-396 | a root array comes back under the key the parser gives it |
| `JsonBrackets.PlainIsBalanced` | library/source/help/json.cpp:312-333 | a string without brackets is balanced |
| `JsonBrackets.TextBalanced` | library/source/help/json.cpp:827-868 | the printed text of a tree with balanced strings is balanced in both kinds of brackets |
| `JsonBrackets.BalancedIsPrintable` | library/source/help/json.cpp:312-363 | in a tree with balanced strings every nested container is found again by counting brackets |
| `JsonBrackets.RoundTrip` | library/source/help/json.cpp:35-396 | every tree of objects, arrays, raw strings and keys with balanced brackets, 64-bit integers, booleans and null equals, valid, what is parsed from its text |
| `JsonBrackets.LoopKeeps` | library/source/help/json.cpp:35-396 | a member once stored is never replaced, whatever is read later |
| `JsonCuts.EarlyIsInvalid` | library/source/help/json.cpp:312-363 | a nested container whose own brackets are first balanced before its end is read as something that is not valid |
| `JsonContainers.MemberDecides` | library/source/help/json.cpp:312-363 | the first member that is not found by its own brackets decides: the object comes back exactly if that member is an object left open, and the last one |
| `JsonContainers.ItemDecides` | library/source/help/json.cpp:700-748 | the first item that is not found by its own brackets decides: the array comes back exactly if that item is the last one and left open, an object or an array that ends with a number |
| `JsonContainers.Overrun` | library/source/help/json.cpp:486-778 | an array whose text is taken to go on behind its end is given up at its bracket, unless its last item is a number, which takes the bracket along |
| `JsonContainers.ExtraBrace` | library/source/help/json.cpp:62-94 | a brace too many at the end of an object goes unnoticed |
| `JsonContainers.FoundDecides` | library/source/help/json.cpp:312-363 | a container that is found comes back with its object exactly if it comes back by itself |
| `JsonContainers.BracesDecide` | library/source/help/json.cpp:312-333 | for a string in an object in an object, the round trip holds exactly if its braces are balanced, or if nothing follows, never close too much |
| `JsonContainers.BracketsDecide` | library/source/help/json.cpp:348-363 | for a string in an array in an object, whatever members follow, the round trip holds exactly if its square brackets are balanced |
| `JsonStrings.RawDecides` | library/source/help/json.cpp:98-116 | a string survives printing and parsing exactly if every quote in it, and a backslash at its end, is escaped |
| `JsonStrings.RawMeans` | library/source/help/json.cpp:98-116 | raw strings by their backslashes: every quote has an odd number of them before it, the end an even one |
| `JsonStrings.RawDecidesItem` | library/source/help/json.cpp:501-523 | a string in an array survives printing and parsing under the same condition |
| `JsonStrings.EndsEarly` | library/source/help/json.cpp:99-106 | an unescaped quote ends the string, and the shorter string stays stored under the key |
| `JsonStrings.NeverEnds` | library/source/help/json.cpp:108-114 | a lone backslash at the end takes the closing quote along and leaves the object invalid |
| `JsonSpaces.PassesBlanks` | library/source/help/json.cpp:86-93 | outside quotes, in front of a key or of a value, any run of blanks, line feeds and tabs is passed over |
| `JsonSpaces.PassesBlankItems` | library/source/help/json.cpp:529-531 | the same between the items of an array |
| `JsonSpaces.SpacedRoundTrip` | library/source/help/json.cpp:35-396 | a tree with balanced strings is parsed from its text with any blanks between any two tokens, nested containers included |
| `JsonTokens.ReadsAnyNumber` | library/source/help/json.cpp:184-262 | a number of any form is stored and the character behind it consumed: a float as its text, an integer up to 18446744073709551615 and from -9223372036854775808; beyond them the object is given up |
| `JsonTokens.ReadsAnyItemNumber` | library/source/help/json.cpp:580-656 | the same for an item of an array |
| `JsonTokens.NoNumber` | library/source/help/json.cpp:189-250 | a second dot, a sign without a digit and a number that the text breaks off in are refused |
| `JsonTokens.UnfinishedNumber` | library/source/help/json.cpp:184-250 | a number that the text ends in is not stored, and the object is not valid |
| `JsonTokens.ReadsLiteral` | library/source/help/json.cpp:264-307 | true, false and null are stored as what they say |
| `JsonTokens.NoLiteral` | library/source/help/json.cpp:264-307 | a word that starts like one of them and is none ends the reading |
| `JsonTokens.BetweenMembers` | library/source/help/json.cpp:81-94 | which characters are passed over between members, which starts a key, and that any other ends the reading, the object not valid |
| `JsonTokens.BeforeValue` | library/source/help/json.cpp:118-388 | the same in front of a value |
| `JsonTokens.EndsInside` | library/source/help/json.cpp:390-397 | a text that ends inside a key, a string or a member is not valid; otherwise it is if all members are |
| `JsonTokens.BetweenItems` | library/source/help/json.cpp:513-768 | the same between items |
| `JsonTokens.NoItem` | library/source/help/json.cpp:636-695 | a sign without a digit and a word that is no literal end the reading of an array |
| `JsonTokens.ItemsEnd` | library/source/help/json.cpp:771-778 | when an array is valid at its last character |
| `JsonTokens.Bodies` | library/source/help/json.cpp:39-45 | bodies that are refused by their length or their brackets |
| `JsonTokens.LessMeans` | library/source/help/json.cpp:459-474 | keys are ordered like words, by the first character in which they differ |
| `JsonTokens.EmplaceMeans` | library/source/help/json.cpp:98-106 | a member goes to its place in the order of the keys, unless its key is there already |
| `JsonScanner.FindClosing` | library/source/help/json.cpp:312-333 | the depth-counting loop finds the first bracket that closes the container, or the bound |
| `JsonScanner.ReadNumber` | library/source/help/json.cpp:184-262 | the number loop takes in what the number consists of and the character behind it |
| `JsonScanner.Construct` | library/source/help/json.cpp:35-396 | the index loop over the body computes the parse of the body, about which the laws of members, tokens and blanks speak |
| `JsonScanner.ReadArray` | library/source/help/json.cpp:486-778 | the index loop of the array constructor computes the parse of the array |
| `Cells.NumberOfBytes` | library/source/help/table.h:1102-1157 | a number is read back from its little-endian bytes |
| `Cells.PrimitiveRoundTrip` | library/source/help/table.h:1102-1157 | a value within its type's range is read back from its bytes, negative ones included |
| `Cells.WrapInRange` | library/source/help/table.cpp:225-240 | a cast changes nothing within the range of its type |
| `Cells.CellSizeIsLength` | library/source/help/table.h:510-534 | a cell takes as many bytes as the accounting counts |
| `Cells.Ranges` | library/source/help/table.h:494-554 | the least and the greatest value of each of the thirteen types |
| `Cells.Widths` | library/source/help/table.h:1102-1157 | the bytes that a value of each type takes |
| `Cells.ByteOf` | library/source/help/table.h:1102-1157 | the i-th byte of a number is its i-th digit to the base 256, the least first |
| `Cells.CellSizes` | library/source/help/table.h:505-534 | what a cell of each type adds to the size: 1, 2, 4 or 8, one more for a full optional, 1 for an empty one, 8 and its length for a string |
| `Cells.CellBytes` | library/source/help/table.h:1102-1157 | the flag of an optional and the length of a string in their bytes |
| `Cells.WrapMeans` | library/source/help/table.cpp:225-240 | a cast adds or subtracts the number of the type's values until the number is in range |
| `TableLayout.RowsSizeIsLength` | library/source/help/table.h:1077-1168 | the counted size of the rows is the length of their layout |
| `TableLayout.OneColumn` | library/source/help/table.h:494-554 | a row of a table with one column adds and lays out its one cell |
| `TableLayout.RowsSizeUpdate` | library/source/help/table.h:567-620 | changing one cell changes the size by the difference of the two cells |
| `TableUnique.CellPrefixFree` | library/source/help/table.h:635-807 | no cell's bytes continue another's: a cell is read in one way only |
| `TableUnique.EncodingDeterminesRows` | library/source/help/table.h:635-807 | two tables with the same columns and the same buffer hold the same rows |
| `CellReader.ReadCell` | library/source/help/table.h:635-807 | reading at an offset gives the cell laid out there and the offset behind it |
| `UpdateAccounting.AccountingExact` | library/source/help/table.h:588-604 | the size accounting of an update is right exactly if it keeps the presence of an optional |
| `UpdateAccounting.FillingAdds` | library/source/help/table.h:588-599 | what filling an optional adds and emptying it takes away: 2, 4, 8 or 16 by its type |
| `UpdateAccounting.OthersAdd` | library/source/help/table.h:583-601 | a string changes the size by its length, and nothing else does |
| `TableModel.Table.constructor` | library/source/help/table.h:315-320 | a new table has no rows and the size of its length word |
| `TableModel.Table.AddRow` | library/source/help/table.h:494-554 | the row is added behind the others and the size stays exact |
| `TableModel.Table.UpdateCell` | library/source/help/table.h:567-620 | the cell is replaced if the type fits and the row exists; the size stays exact exactly if no presence changed |
| `TableModel.Table.GetCell` | library/source/help/table.h:1029-1043 | the cell at a column and row, none outside the table |
| `TableModel.Table.Clear` | library/source/help/table.h:1050-1057 | no rows are left and the size is that of the length word |
| `TableModel.Table.Encode` | library/source/help/table.h:1077-1168 | the buffer is the layout of the rows behind its length; the cells fill it exactly, so the mismatch branch is never taken |
| `TableModel.Table.Copy` | library/source/help/table.h:635-807 | a table of the same columns takes over the rows of the buffer, whatever it held, and reading ends at the recorded size |
| `TableModel.Transfer` | library/source/help/table.h:635-807 | encoding a table and copying it into another gives equal rows, row count and size |
| `TableModel.Header` | library/source/help/table.h:1102 | the first word of an encoded table is its length |
| `TableJsonCells.CellRoundTrip` | library/source/help/table.cpp:225-390 | a JSON value comes back from its cell exactly if it matches the column within range |
| `TableJsonCells.ColumnTakes` | library/source/help/table.cpp:244-390 | which JSON values each column type takes |
| `TableJsonCells.CellIs` | library/source/help/table.cpp:225-390 | what they become: the number cast to the type, an empty optional for null, the string |
| `TableJsonCells.SupportedTypes` | library/source/help/table.cpp:106-186 | optionals are formed of numbers only |
| `TableJsonCells.ConvertedRowsFit` | library/source/help/table.cpp:225-390 | whatever rows are accepted, their cells are values of the column types |
| `TableJsonCells.RowsRoundTrip` | library/source/help/table.cpp:197-403 | all rows are accepted and come back exactly if every row matches the columns |
| `TableJson.AllocationStep` | library/source/help/table.cpp:106-186 | an unsupported column type is found out before anything is allocated; otherwise the step is the sum over the columns |
| `TableJson.Foreseen` | library/source/help/table.cpp:106-186 | the bytes foreseen for a column: those of a full cell, 72 for a string |
| `TableJson.StepSuffices` | library/source/help/table.cpp:106-188 | the step is room enough for every row without a string of more than 64 bytes |
| `TableJson.Room` | library/source/help/table.cpp:212-223 | after it there is room for the cell, what was written is still there, and the buffer has grown by the step or by the size with its last term doubled, whichever is more, or not at all |
| `TableJson.GrowthMeans` | library/source/help/table.cpp:212-223 | the least growth of the buffer for each kind of cell, in its bytes |
| `TableJson.WriteCell` | library/source/help/table.cpp:212-390 | a suitable value is appended as its cell; the offset never exceeds the allocated size |
| `TableJson.WriteRow` | library/source/help/table.cpp:197-403 | a row of suitable values is appended, any other stops the forming |
| `TableJson.FormTable` | library/source/help/table.cpp:99-422 | the buffer, grown as needed and cut down at the end, is the encoding of the converted rows with its length in the first word, or of no rows if any row does not do |
| `TableJson.PrintRow` | library/source/help/table.cpp:461-579 | one row of the buffer is printed as its values separated by commas |
| `TableJson.LookUpToJson` | library/source/help/table.cpp:445-595 | the text printed from a buffer is the JSON view of the table it encodes |
| `TableJson.FormAndLookUp` | library/source/help/table.cpp:99-595 | forming a table and looking it up prints the view of the converted rows |
| `TableJson.RowsComeBack` | library/source/help/table.cpp:99-595 | for any rows, what is printed are these rows exactly if they match the columns value by value and within range |
| `TableJson.ParsedBack` | library/source/help/table.cpp:445-595 | matching rows, printed from the table and parsed again, are the same rows beside the size of the buffer |
| `StandardEntries.TagsDecide` | library/source/help/standardType.hpp:37-76 | no two kinds of values share a type tag |
| `StandardEntries.TagsAre` | library/source/help/standardType.hpp:37-76 | the tag of every kind of value, as a number |
| `StandardEntries.EntryBytes` | library/source/protocol/standard.h:106-216 | the bytes of an entry of every kind: 9 for tag and key, and those of the value |
| `StandardEntries.EntryLayout` | library/source/protocol/standard.cpp:198-248 | where tag, key and value of an entry lie |
| `StandardEntries.EntrySizeIsLength` | library/source/protocol/standard.h:106-216 | an entry takes as many bytes as the accounting counts |
| `StandardEntries.ReadsBack` | library/source/protocol/standard.cpp:53-183 | every value is read back from its tag and payload: full and empty optionals, empty strings, nested tables skipped by their own length |
| `StandardMessage.EntriesSizeAdd` | library/source/protocol/standard.h:98-219 | a new key adds the size of its entry wherever it falls in the order |
| `StandardMessage.ReadsEntry` | library/source/protocol/standard.cpp:40-185 | one entry is read back ahead of whatever the bytes behind it give |
| `StandardMessage.ReadsListed` | library/source/protocol/standard.cpp:40-185 | decoding entries in any order, with repeated keys, keeps the first of each key |
| `StandardMessage.ReadsEntries` | library/source/protocol/standard.cpp:40-185 | the entries of a map are read into any map that shares no key with it |
| `StandardMessage.MessageRoundTrip` | library/source/protocol/standard.cpp:40-255 | a message is read back whole: cipher, size, and every value and tag under its key |
| `StandardData.DataObject.constructor` | library/source/protocol/standard.cpp:35-38 | a new message is empty and has the size of its header |
| `StandardData.DataObject.SetData` | library/source/protocol/standard.h:98-219 | the first value of a key is kept with its tag and counted, a second one ignored |
| `StandardData.DataObject.Encode` | library/source/protocol/standard.cpp:189-250 | the buffer is cipher, size and the entries by ascending key, and is filled exactly |
| `StandardData.DataObject.Decode` | library/source/protocol/standard.cpp:40-185 | the decoder holds what reading the entries gives, as long as the offset is below the size word of the header and up to an unknown tag |
| `StandardData.DataObject.Clear` | library/source/protocol/standard.cpp:257-262 | nothing is left but the header |
| `StandardData.Transmit` | library/source/protocol/standard.cpp:40-255 | a message that goes through its buffer has the same values, tags and size |
| `StandardData.TableNests` | library/source/protocol/standard.cpp:175-178 | every encoded table can be nested: its first word is the length it is skipped by |
| `StandardData.SendTable` | library/source/protocol/standard.cpp:40-255 | a table nested in a message that is sent and copied out again has the same rows and size, and the rest of the message is what it was |
| `Calendar.MonthLengths` | library/source/help/time.h:39-40 | the days of every month, and every fourth year as the leap years |
| `Calendar.DayNumberCounts` | library/source/help/time.cpp:570-590 | the closed formula with its leap-day count numbers the days as counting them one by one does |
| `Calendar.OrderOfDays` | library/source/help/time.cpp:365-382 | day numbers order real dates as the comparison does, and tell them apart |
| `Calendar.DateOfNumber` | library/source/help/time.cpp:513-545 | every real date is the one reached by counting its day number |
| `TimerDates.OneYearBack` | library/source/help/time.cpp:520-530 | the leap days so far are fewer than a year, so one year back is enough |
| `TimerDates.LeapCorrection` | library/source/help/time.cpp:520-530 | years of 365 days and the rest become the year and the day within it |
| `TimerDates.MonthLoop` | library/source/help/time.cpp:532-542 | the day of the year becomes the month and the day within it |
| `TimerDates.ToDate` | library/source/help/time.cpp:513-545 | the date of a timer is the date that counting its days gives |
| `TimerDates.HowMuchDaysFromStartOfYearTillMonth` | library/source/help/time.cpp:556-568 | the days of the year before a month, none for a month that does not exist |
| `TimerDates.Create` | library/source/help/time.cpp:570-612 | the timer of a date and a time, in 64 bits, empty if they are not accepted |
| `TimerDates.DateComesBack` | library/source/help/time.cpp:513-612 | an accepted date and time come back exactly if they are a date of the calendar and a time of the clock, and their nanoseconds fit in 63 bits |
| `TimerDates.LastTimer` | library/source/help/time.h:55-56 | the last timer is 9 April 2262, 23:47:16.854775807 |
| `TimerDates.FitsUntil` | library/source/help/time.h:55-56 | every time before that day fits, none after it, and on it those up to that time |
| `TimerDates.LaterIsAccepted` | library/source/help/time.cpp:570-612 | 1 January 2300 is accepted and gives a negative timer |
| `TimerDates.MissingLeapDay` | library/source/help/time.cpp:570-590 | the only other date accepted is 29 February in a year without it, and gives the timer of 1 March |
| `TimerDates.MinuteSixty` | library/source/help/time.cpp:570-590 | the only other time accepted is the minute 60, and gives the timer of the next hour, after 23 o'clock of the next day |
| `TimerDates.MidnightBefore` | library/source/help/time.cpp:513-590 | creating a timer from the date of a 63-bit timer gives the midnight before it |
| `TimerDates.CreateMonotone` | library/source/help/time.cpp:365-375 | real dates make timers in the order of dates, as long as their timers fit |
| `TimerDates.PartsMakeTimer` | library/source/help/time.cpp:422-461 | every 63-bit timer is the timer of its own date and time of day |
| `TimerText.ToString` | library/source/help/time.cpp:422-461 | 29 characters: the calendar date and the time of day as numbers of 4, 2, 2, 2, 2, 2 and 9 digits, with their separators in their places |
| `TimerText.ReadField` | library/source/help/time.h:724-732 | digits are read as a number wrapped in the width of its type |
| `TimerText.FromText` | library/source/help/time.h:712-752 | a text gives the timer of the parts read from it |
| `TimerText.WrapStep` | library/source/help/time.h:724-727 | wrapping at every digit is wrapping once |
| `TimerText.TextReads` | library/source/help/time.h:712-752 | the parts are read back from a printed date and time |
| `TimerText.ReadsSeven` | library/source/help/time.h:712-752 | any seven numbers with any one character between them are read in order, the year modulo 65536, the nanoseconds modulo 4294967296, the others modulo 256 |
| `TimerText.TextRoundTrip` | library/source/help/time.h:712-752 | every non-negative 63-bit timer is read back from its text |
| `TimerText.ThroughText` | library/source/help/time.cpp:422-461 | printing and reading a timer gives the timer |
| `Utf8.PointRoundTrip` | library/source/help/helper.h:377-468 | a code point is read back from its bytes, whatever follows them |
| `Utf8.WrittenAs` | library/source/help/helper.h:437-474 | code points of one and two bytes by their bytes, none beyond the last |
| `Utf8.LengthByPoint` | library/source/help/helper.h:437-474 | which code points take three and four bytes |
| `Utf8.Examples` | library/source/help/helper.h:377-474 | examples of one to four bytes, written and read |
| `Utf8.ShortestForm` | library/source/help/helper.h:377-468 | a code point read from bytes is written as these bytes if it needs as many, else as fewer, or not at all beyond the last code point |
| `Utf8Text.StringToWstring` | library/source/help/helper.h:377-428 | the loop decodes the text before its terminator, or nothing if a byte is out of place |
| `Utf8Text.WstringToString` | library/source/help/helper.h:437-474 | the loop encodes the text before its terminator, or nothing if a character is no code point |
| `Utf8Text.NormalizeOctalEscapedUtf8` | library/source/help/helper.h:485-488 | decoding and encoding one after the other |
| `Utf8Text.WideRoundTrip` | library/source/help/helper.h:377-474 | every wide text of code points comes back from its bytes |
| `Utf8Text.NormalizeIdentity` | library/source/help/helper.h:485-488 | normalising leaves a zero-free text as it is exactly if it is shortest-form UTF-8 |
| `Base64.EncodedLength` | library/source/help/helper.h:541-550 | the encoding has four characters for every three bytes begun |
| `Base64Groups.Alphabet` | library/source/help/helper.h:543 | the alphabet: A to Z, a to z, 0 to 9, + and / |
| `Base64.TestVectors` | library/source/help/helper.h:541-584 | the encodings of f, fo and foo |
| `Base64.Encode` | library/source/help/helper.h:541-584 | with room enough the encoding is written and nothing beyond it, otherwise nothing |
| `Base64.Decode` | library/source/help/helper.h:604-686 | the decoding is written, and nothing beyond its size; refused input gives nothing |
| `Base64.DecodesEncoded` | library/source/help/helper.h:541-686 | every byte sequence is decoded from its encoding |
| `Base64.CanonicalComesBack` | library/source/help/helper.h:541-686 | a text is the encoding of what it decodes to exactly if it is canonical |
| `Base64.DecodesExactly` | library/source/help/helper.h:632-682 | which texts are decoded at all |
| `GridOrder.StableSortArranges` | apps/manager/web/js/core/grid.js:645-720 | the sorted list holds the same rows, each pair as the comparator says and by insertion where it finds no difference |
| `GridOrder.ArrangedUnique` | apps/manager/web/js/core/grid.js:645-720 | there is only one such arrangement |
| `GridOrder.NullsAtTheEnd` | apps/manager/web/js/core/grid.js:649-705 | rows without a value stand first in ascending and last in descending order |
| `GridOrder.NumbersInOrder` | apps/manager/web/js/core/grid.js:645-720 | numbers do not fall in ascending order and do not rise in descending order, and equal values stand in the order of insertion |
| `GridData.IndexAscends` | apps/manager/web/js/core/grid.js:641-657 | sorted by the index, the rows' indices ascend |
| `GridModel.Rows.SwapRows` | apps/manager/web/js/core/grid.js:247-270 | two rows change places in both maps; nothing happens where there is no row |
| `GridModel.Rows.Rearrange` | apps/manager/web/js/core/grid.js:749-751 | the swap loop puts row i of the sorted list in place i + 2, and no row is lost |
| `GridModel.Rows.Add` | apps/manager/web/js/core/grid.js:1251-1256 | a new row stands behind the others |
| `GridModel.Rows.Remove` | apps/manager/web/js/core/grid.js:1470-1480 | the row leaves and the others keep their order |
| `GridTable.Grid.ApplySorting` | apps/manager/web/js/core/grid.js:633-752 | ascending numbers do not fall and missing values come first, descending ones do not rise and missing values come last, equal values stand in insertion order, and sorting is on for this column alone; after clearing the indices ascend |
| `GridTable.Grid.SortBy` | apps/manager/web/js/core/grid.js:491-526 | choosing an order in the settings of a column puts the rows in ascending or descending order of its values and turns every other column off; choosing the order it has changes nothing |
| `GridTable.Grid.Click` | apps/manager/web/js/core/grid.js:595-604 | a click turns ascending rows descending and descending ones ascending, and does nothing to a column that is not sorted |
| `GridTable.Grid.ClearSorting` | apps/manager/web/js/core/grid.js:641-665 | clearing the sorted column leaves no sorting on |
| `GridTable.Grid.AddRow` | apps/manager/web/js/core/grid.js:1251-1275 | a new row is added and sorted in if sorting is on |
| `GridTable.Grid.UpdateRow` | apps/manager/web/js/core/grid.js:1336-1400 | the new values are taken on and the rows stay in the order of the sorted column |
| `GridTable.Grid.AddOrUpdateRow` | apps/manager/web/js/core/grid.js:1237-1295 | a known index is updated, a new one added, values without an index ignored |
| `GridTable.Grid.RemoveRow` | apps/manager/web/js/core/grid.js:1463-1480 | the row leaves all maps, the others keep their order and so stay sorted |
| `ServerModel.Server.Start` | library/source/server/server.cpp:84-119 | a server starts once: it runs if its listening socket could be set up and is stopped for good otherwise; in any other state nothing happens |
| `ServerModel.Server.WithinLimit` | library/source/server/server.cpp:447-468 | no address ever has more connections than the limit, or one |
| `ServerModel.Server.Listed` | library/source/server/server.cpp:169-186 | an accepted connection stands in the list of its address and is counted once |
| `ServerModel.Server.FreshId` | library/source/server/server.cpp:163-167 | the id is held by no accepted and no outgoing connection |
| `ServerModel.Server.IsConnectionAllowed` | library/source/server/server.cpp:447-468 | a connection is admitted exactly while its address is below the limit, and entered in its list |
| `ServerModel.Server.AcceptStep` | library/source/server/server.cpp:158-209 | an admitted connection is in the books, a refused one or one without a thread leaves them as they were |
| `ServerModel.Server.CloseAccepted` | library/source/server/server.cpp:392-415 | an accepted connection leaves the books and the list of its address, and is counted off |
| `ServerModel.Server.OpenConnect` | library/source/server/server.cpp:470-572 | when an outgoing connection comes about, that nothing stays of it otherwise, and that the books stay in agreement exactly unless it is entered under the id of an accepted connection |
| `ServerModel.Server.Close` | library/source/server/server.cpp:374-445 | a closed outgoing connection is opened anew exactly if it asks for it and the server has not stopped |
| `ServerModel.Server.CloseConnect` | library/source/server/server.cpp:576-591 | the outgoing connection is gone for good |
| `ServerModel.Server.Stop` | library/source/server/server.cpp:229-272 | no connection, no socket and no list entry is left, and the counter is zero |
| `ConnectionBooks.AcceptBooks` | library/source/server/server.cpp:169-186 | an admitted connection keeps the counter equal to accepted plus outgoing connections and the lists a partition within the limit |
| `ConnectionBooks.Entered` | library/source/server/server.cpp:510-517 | entering an outgoing connection keeps the books in agreement exactly if no accepted connection has its id |
| `ConnectionBooks.Lost` | library/source/server/server.cpp:392 | a connection erased by id alone breaks the books exactly if it is an accepted one |
| `ConnectionBooks.Remove` | library/source/server/server.cpp:392-415 | erasing a connection keeps the lists a partition of the accepted ones |
| `ParameterValues.ViolationExact` | library/source/server/application.cpp:35-298 | the checks find an error exactly if the limits or the emptiness rule are broken |
| `ParameterValues.SatisfiesMeans` | library/source/help/helper.h:281-324 | the limits in numbers for every type, with the tolerance of floats and doubles, and when emptiness is an error |
| `ParameterValues.ViolationNames` | library/source/server/application.cpp:35-298 | which limit the error names |
| `ParameterValues.SkippedMeans` | library/source/server/application.cpp:300-602 | which updates of its own type a parameter skips, by their values |
| `ParameterValues.OtherKindSkipped` | library/source/server/application.cpp:300-312 | updates of another type are skipped |
| `ParameterValues.MergeWatches` | library/source/server/application.cpp:300-602 | an update never lets a broken limit go without an error, and when it sets one |
| `ApplicationModel.Parameter.RegisterValidation` | library/source/server/application.cpp:35-298 | the checks, type by type, give the parameter an error exactly if its value breaks the limits or the emptiness rule |
| `ApplicationModel.Parameter.Merge` | library/source/server/application.cpp:300-602 | another type or the same value changes nothing, any other value is taken on with its error or none; the result says whether it satisfies the limits |
| `ApplicationModel.Application.RunningImpliesValid` | library/source/server/application.h:747-775 | while the application runs every value satisfies its limits |
| `ApplicationModel.Application.RegisterParameter` | library/source/server/application.cpp:1061-1078 | errors and error map agree; a running application stays safe exactly if the new parameter is valid |
| `ApplicationModel.Application.MergeParameter` | library/source/server/application.cpp:1143-1156 | the parameter takes the update, and is in the error map exactly if it has an error; a running application stays safe exactly if the update is skipped or satisfies the limits |
| `ApplicationModel.Application.MergeParameters` | library/source/server/application.cpp:1136-1141 | each parameter takes its own update and no other |
| `ApplicationModel.Application.SetCustomError` | library/source/server/application.cpp:1158-1174 | the parameter gets an error and enters the map; a running application is safe afterwards only if the parameter does not exist |
| `ApplicationModel.Application.HandleRunRequest` | library/source/server/application.h:747-759 | the application starts running exactly if no parameter has an error |
| `ApplicationModel.Application.HandlePauseRequest` | library/source/server/application.h:761-768 | a running application is paused |
| `ApplicationModel.Application.HandleModifyRequest` | library/source/server/application.h:770-775 | after any modification the application is safe: it is paused if a parameter has an error |

## Left out

- Sockets, `recv` and `send`, threads, signals, files and logging. A send appends to a trace; allocation succeeds; what the system answers to an accept, a connect or a thread creation is a parameter.
- Locks: every operation is one atomic step. `AtomicRWLock` is not part of this model.
- The application's `HandleNewStreamOpened` is a parameter: the finite list of old objects it offers and its filter decision. It does not touch the containers.
- `typeid(T).hash_code()` is the class itself: no two classes share a hash.
- `~Stream` and the Removed state, which the distributor only logs.
- More than one filter for a stream, which the distributor refuses; the loops over several filters see one.
- The order in which `Stop` visits the streams and in which the equal range of the hash index is visited: any order.
- Sizes beyond `size_t` and `int` counters that overflow.
- JSON numbers with a dot or an exponent are kept as the text they were read from; their conversion, which may refuse an exponent, and their printing are platform arithmetic.
- JSON text whose last array is never closed makes the source look one character beyond the body; the model has no bracket there.
- StreamAgreement.Agreement: that no issue is reported, and that a client is at rest exactly when it has no registration, is stated for patient clients only; that the two sides agree on an open stream is stated for all, in `StreamCrossing.AgreementExact`.
- JsonContainers.MemberDecides: for an object left open, the members behind it close no brace that they do not open; an array left open needs no such condition. What is read when a later string happens to close the open one is not modelled further, nor is a container of which parts are not found either.
- JsonContainers.ItemDecides: for a container left open, the items behind it close no bracket of its kind that they do not open, for the same reason.
- Float columns in the JSON path of tables; in the codecs a float cell is its bit pattern. A table without columns, which the source refuses to build.
- JSON rows with a table column, and looking up a buffer that does not come from a table of these columns.
- Reads beyond the end of a standard message: the decoder stops there.
- Negative timers, and the calendar as it is used elsewhere: the source documents a leap day every fourth year, and that is the calendar proved. Arithmetic that overflows 64 bits with sign wraps round, which C++ leaves undefined.
- Surrogates and other checks that the UTF-8 decoder does not make.
- Rows of a grid that lack a value in a column, values that JavaScript does not order, and columns, filters and rendering of the grid.
- The cells of a row in the grid, which `UpdateRow` looks up by metadata: every column is taken to have one.
- Repeated attempts to connect, which are one attempt with its outcome.
- Writes of the application to its own variables: a parameter of the source points to one (`library/source/server/application.cpp:29-33`), and a value assigned to it directly is not checked. In the model a value changes by `Merge` alone.
- Table parameters, constant parameters, and the wording of the error messages. Floats are reals.
- HTTP, HTML and WebSocket scanners, events, authorization, the allocator and the circular container.
