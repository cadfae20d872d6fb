# nodies-batch-send, verified model

`src/index.ts` is a command-line script that sends the same amount of POKT to
every address listed in a CSV file through the Pocket Network SDK, one
transfer at a time, and writes the outcome of each transfer to an output CSV.
This project models the part of that script that is its own logic:

- **Recipient file** (`recipient_csv.dfy`, with the string primitives in
  `lines.dfy`). The file text is split on `'\n'` and every line is trimmed
  with JavaScript's `trim()`. `isValidCsv` then checks three things, in this
  order: the first line is exactly `address`, every later line has exactly
  40 characters, and there are at most 1000 later lines. The recipients are
  the lines after the header, in file order.
- **Pre-flight gate** (`preflight.dfy`). Before anything is sent, `main`
  runs seven checks in a fixed order and returns at the first that fails:
  key file present, passphrase non-empty, address file present, amount
  valid, provider URL valid, recipient file valid, and the user answered
  exactly `y` or `yes`.
- **Send loop** (`send_loop.dfy`). For each recipient, in order, `main`
  builds a transfer to the lower-cased address and submits it. It records
  the address as written in the file with the transaction hash, or with
  `ERROR: ` and the error text when the submission throws, and goes on. A
  throw from building the transfer, or from turning a caught error into
  text, ends the loop and the run.
- **Output text** (`result_csv.dfy`). The output is the header
  `address,response` and one `address,response` line per record, each line
  ended by `'\n'`.
- **A whole run** (`batch_send.dfy`). `Run` puts these together: an early
  return at the first failed check, or an exception that ends the run
  without an output file, or every recipient attempted and the output text
  built.

What the script cannot decide itself is an input of the model. These are
whether each file is accessible, whether the amount parses as a positive
number, whether the URL parses, and whether the wallet unlocks. The SDK's
`send`/`submit` pair, together with the `JSON.stringify` of a caught error, is
an oracle `submit(i, target)` that gives the outcome of the i-th transfer: a
hash, a rejection with its error text, a throw from `send` while building the
message, or a rejection whose error `JSON.stringify` cannot serialize.

Empty lines after the header are not skipped. Each one is a data line of
length 0, so a file that ends in a line feed is always rejected
(`RecipientCsv.TrailingLineFeedRejected`).

## Model

| member | source | states |
|---|---|---|
| `Lines.IsWhitespace` | src/index.ts:54 | among ASCII characters exactly tab, line feed, vertical tab, form feed, carriage return and space are removed by `trim()`, so no letter, digit or punctuation of an address is; every whitespace character lies in the Basic Multilingual Plane |
| `Lines.Trim` | src/index.ts:54 | `trim()` keeps a contiguous slice of the line; everything removed before and after it is whitespace, and the result has no whitespace at either end |
| `Lines.TrimUnique` | src/index.ts:54 | any cut of a line into leading whitespace, a middle with no whitespace at its ends, and trailing whitespace has `Trim` as its middle, so `Trim` is fully determined |
| `Lines.TrimFixed` | src/index.ts:54 | a line with no whitespace at either end is left unchanged by `trim()` |
| `Lines.TrimNoLineFeed` | src/index.ts:54 | trimming a line that holds no line feed never yields one |
| `Lines.TrimIdempotent` | src/index.ts:54 | trimming twice gives the same line as trimming once |
| `Lines.Split` | src/index.ts:54 | `split('\n')` always gives at least one line, and no line contains a line feed |
| `Lines.SplitAppend` | src/index.ts:54 | splitting `a + "\n" + b` gives the lines of `a` followed by the lines of `b` |
| `Lines.JoinSplit` | src/index.ts:54 | joining the lines of a split with `'\n'` gives back the original text |
| `Lines.SplitJoin` | src/index.ts:54 | splitting the join of a non-empty list of lines without line feeds gives back that list |
| `Lines.SplitTrailingLineFeed` | src/index.ts:54 | text that ends in a line feed splits into the lines of the rest plus a final empty line |
| `RecipientCsv.TrimAll` | src/index.ts:54 | `map(line => line.trim())` keeps the number and order of lines and trims each one |
| `RecipientCsv.Preprocess` | src/index.ts:53-54 | the file always has a first line; every line is the trimmed piece at the same position, with no whitespace at either end and no line feed |
| `RecipientCsv.Recipients` | src/index.ts:62 | the recipients are exactly the lines after the header, in file order |
| `RecipientCsv.WrongLength` | src/index.ts:168 | the filtered list is no longer than the input, holds only input lines whose length is not 40, holds every such line, and is empty exactly when every line has length 40 |
| `RecipientCsv.WrongLengthOfOne` | src/index.ts:168 | a single line is kept by the filter exactly when its length is not 40 |
| `RecipientCsv.WrongLengthOfConcat` | src/index.ts:168 | filtering a concatenation filters each part and keeps them in order, so the result is every wrong-length line, once per occurrence, in file order |
| `RecipientCsv.CheckCsv` | src/index.ts:162-178 | a wrong or missing header is reported whatever the data lines are; otherwise the wrong-length data lines are reported, all of them and nothing but data lines, whenever there is one; otherwise more than 1000 lines are reported with their count; otherwise the file is accepted; each verdict holds exactly under its condition |
| `RecipientCsv.IsValidCsv` | src/index.ts:162-178 | true exactly when the header is `address`, every data line has length 40, and there are at most 1000 data lines; 1001 well-formed lines are rejected |
| `RecipientCsv.TrailingLineFeedRejected` | src/index.ts:168-172 | any file text ending in `'\n'` is rejected, because its last line is empty and empty lines are not skipped |
| `RecipientCsv.WellFormedFileAccepted` | src/index.ts:54-62 | the header line followed by up to 1000 trimmed 40-character addresses, one per line, is accepted, and its recipients are exactly those addresses in order |
| `Preflight.IsValidPassphrase` | src/index.ts:180-182 | a passphrase is accepted exactly when it is not empty |
| `Preflight.IsConfirmed` | src/index.ts:71 | only the exact answers `y` and `yes` confirm; `Y`, `Yes`, `YES` and answers with surrounding spaces do not |
| `Preflight.Gate` | src/index.ts:23-75 | the run proceeds exactly when all seven checks pass, and then its recipients are the trimmed lines after the header: at most 1000, each of length 40, trimmed and without a line feed |
| `Preflight.Checks` | src/index.ts:23-75 | the seven checks, each with the failure it reports, in `main`'s order: key file, passphrase, address file, amount, URL, recipient file (with `isValidCsv`'s verdict), confirmation |
| `Preflight.FirstFailed` | src/index.ts:23-75 | the position of the first failed check: every check before it passed, and the check at it failed |
| `Preflight.GateStopsAtFirstFailure` | src/index.ts:23-75 | the gate's decision is the failure of the first failed check in the order key file, passphrase, address file, amount, URL, recipient file, confirmation, or to proceed when none failed |
| `Preflight.AllChecksPassExactlyOnProceed` | src/index.ts:23-75 | every one of the seven checks passes exactly when the gate lets the run proceed |
| `SendLoop.LowerAscii` | src/index.ts:110 | an upper-case ASCII letter becomes its lower-case partner; every other character is unchanged |
| `SendLoop.ToLower` | src/index.ts:110 | lower-casing keeps the length and maps each character independently |
| `SendLoop.ToLowerIdempotent` | src/index.ts:110 | lower-casing an already lower-cased address changes nothing |
| `SendLoop.SendAll` | src/index.ts:99-123 | one transfer per recipient, in file order, to the lower-cased address; record i holds recipient i as written in the file, and holds the hash if submission i succeeded or `ERROR: ` plus the error text if it failed; record i depends on nothing but recipient i and transfer i; the loop stops exactly when some transfer throws out of it, either from `send` (outside the `try`) or from `JSON.stringify` of the caught error (inside the `catch`), and it stops at the first such recipient |
| `ResultCsv.Row` | src/index.ts:128 | a record's line is its address, a comma and its response, unquoted, and it holds a line feed exactly when one of the fields does |
| `ResultCsv.Rows` | src/index.ts:126-129 | the record lines are empty exactly when there are no records, and otherwise end in a line feed |
| `ResultCsv.RowsLineFeeds` | src/index.ts:126-129 | when no field holds a line feed, the record lines hold exactly one line feed per record |
| `ResultCsv.Serialize` | src/index.ts:126-129 | the output starts with the line `address,response` and always ends with a line feed |
| `ResultCsv.BuildCsv` | src/index.ts:126-129 | the loop that grows `csvContent` one record at a time produces `Serialize(records)`: the header line, then one line per record, in order |
| `ResultCsv.RowsAppend` | src/index.ts:128 | appending a record to the list appends its line and a line feed to the text |
| `ResultCsv.RowLines` | src/index.ts:128 | one line per record, in record order |
| `ResultCsv.SplitRows` | src/index.ts:127-129 | when no field holds a line feed, splitting the record lines gives one line per record, in order, and then an empty line |
| `ResultCsv.SerializeLines` | src/index.ts:126-129 | when no field holds a line feed, splitting the output on `'\n'` gives the header, the n record lines in order, and then `""` |
| `ResultCsv.ParseRow` | src/index.ts:128 | reading a line back splits it at its first comma, so the address read contains no comma |
| `ResultCsv.ParseRowOfRow` | src/index.ts:128 | a record whose address has no comma reads back as itself, even when its response contains commas |
| `ResultCsv.ParseRows` | src/index.ts:127-129 | each line is read back independently, in order |
| `ResultCsv.ParseCsv` | src/index.ts:126-129 | an output that reads back has the header line and one line per record between it and the final empty line |
| `ResultCsv.ParseSerialize` | src/index.ts:126-129 | the output reads back as exactly the records written, when no field holds a line feed and no address holds a comma |
| `BatchSend.OutputLines` | src/index.ts:126-129 | when the records name the recipients in order and no field holds a line feed, line i + 1 of the output is recipient i, a comma and response i, between the header and a final empty line |
| `BatchSend.Run` | src/index.ts:18-135 | the run aborts exactly when the gate fails, with the gate's failure and before any submission or output; a wallet that does not unlock ends it before any transfer with no output; otherwise every recipient is attempted as `BatchSend.Send` states |
| `BatchSend.Send` | src/index.ts:99-132 | a crash happens exactly when some transfer throws, from `send` or from `JSON.stringify` of the caught error; it comes at the first such recipient, after one submission to each earlier recipient (and one to that recipient when it was `JSON.stringify` that threw), and writes no output. Otherwise there is one record per recipient in file order, and the output split on `'\n'` gives the header, line i + 1 = recipient i + `,` + response i, and a final empty line |

## Left out

- The prompts (`askQuestion`, `readline`, src/index.ts:10-13, 19-21, 69, 137-143) are interactive I/O. The passphrase and the confirmation answer are string fields of `Preflight.Inputs`. The amount and the URL are only the booleans `amountIsValid` and `urlIsValid`, and the two file paths only the booleans `keyFileExists` and `addressFileExists`.
- File access and I/O (`isValidFilePath`, `fs.readFileSync`, `fs.writeFileSync`, src/index.ts:53, 85, 130-132, 153-160) are left out. File existence is a boolean input, the address file's text is a string input, and the model stops at the text handed to `writeFileSync`, without the timestamped file name.
- `fs.readFileSync` (src/index.ts:53) can throw even after `accessSync` (src/index.ts:155) passed, for a directory or a file without read permission. `main` then ends with no submission and no output. The model does not capture this, because the address file's text is an input.
- `isValidUrl` (src/index.ts:144-151) depends on the WHATWG `URL` parser, which is not part of this model. It is the boolean input `urlIsValid`.
- `isValidAmount` (src/index.ts:184-189) relies on floating-point `parseFloat`, which accepts inputs such as `1abc`. It is the boolean input `amountIsValid`. The amount itself is not modelled, since it is passed unchanged to every transfer.
- `JsonRpcProvider`, `KeyManager.fromPPK`, `TransactionBuilder.send` and `submit` (src/index.ts:79-96, 109-118) are SDK code that is not part of this model. Whether the wallet unlocks is the boolean input `walletUnlocks`. What `send` and `submit` do with transfer i is the oracle `submit(i, target)`, which sees the position and the lower-cased target address.
- `JSON.stringify(e)` (src/index.ts:121) is opaque: the error text is whatever string the oracle gives, and the oracle's `ErrorNotSerializable` outcome stands for a throw from it (a circular reference or a BigInt in the error). The error text never contains a raw line feed in practice, because JSON escapes it, but the model does not assume so. `BatchSend.Send` states the line-level layout under that condition.
- `SendLoop.ToLower`: handles ASCII letters only. JavaScript's `toLowerCase` also maps non-ASCII letters, using Unicode case mappings that are not part of this model. Non-ASCII characters are kept unchanged.
- String lengths: JavaScript's `length` counts UTF-16 code units, while a Dafny `string` counts Unicode scalar values. The two differ only for characters outside the Basic Multilingual Plane, and no valid address contains one.
- The chain id from `process.env.chainId` (src/index.ts:95), the memo string, console output, `rl.close()` and async/await add no logic. The loop awaits each submission before the next, which the model's in-order loop reflects.

