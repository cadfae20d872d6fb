/** `main` (src/index.ts:18-135) once its prompts have been answered: the
    checks with their early returns, the wallet, the send loop and the
    output text. The text is what `main` hands to `fs.writeFileSync`; the
    file itself, its timestamped name and the console messages are not
    modelled. An exception that escapes `main` (from `KeyManager.fromPPK`,
    from `send`, or from `JSON.stringify` of a caught submission error)
    reaches the handler at src/index.ts:191-194, which only logs it: no
    output file is written. */
module BatchSend {
  import opened Lines
  import opened RecipientCsv
  import opened Preflight
  import opened SendLoop
  import opened ResultCsv

  /** How a run ends: stopped by a failed check, before any submission and
      without an output file; stopped by an exception after `submitted`
      transfers went out (in order, to these lower-cased addresses) and
      without an output file; or after attempting every recipient, with the
      records, the addresses submitted to (in order) and the output text. */
  datatype RunResult =
    | Aborted(failure: Failure)
    | Crashed(submitted: seq<string>)
    | Completed(records: seq<Record>, targets: seq<string>, output: string)

  /** A crash after `submitted` went out: the submissions went to the first
      recipients, in order, at their lower-cased addresses, and the transfer
      that threw is the first one that throws. When `send` threw, that
      transfer was never submitted; when `JSON.stringify` of its error
      threw, it was, and it is the last one submitted. */
  predicate CrashedAfter(recipients: seq<string>, submit: (nat, string) -> Submission, submitted: seq<string>) {
    && |submitted| <= |recipients|
    && (forall i :: 0 <= i < |submitted| ==> submitted[i] == ToLower(recipients[i]))
    && ((HaltsAt(recipients, submit, |submitted|)
         && submit(|submitted|, ToLower(recipients[|submitted|])).BuildFailed?)
        || (|submitted| >= 1
            && HaltsAt(recipients, submit, |submitted| - 1)
            && submit(|submitted| - 1, submitted[|submitted| - 1]).ErrorNotSerializable?))
  }

  /** One submission to each recipient's lower-cased address and one record
      per recipient, in file order, holding the address as written and the
      hash or "ERROR: " and the error text. */
  predicate RecordsMatch(recipients: seq<string>, submit: (nat, string) -> Submission,
                         records: seq<Record>, targets: seq<string>) {
    && |records| == |recipients| && |targets| == |recipients|
    && forall i :: 0 <= i < |recipients| ==>
         targets[i] == ToLower(recipients[i])
         && records[i].address == recipients[i]
         && match submit(i, targets[i])
            case Submitted(hash) => records[i].response == hash
            case Rejected(error) => records[i].response == ErrorPrefix + error
            case BuildFailed(_) => false
            case ErrorNotSerializable => false
  }

  /** When no response holds a line feed, the output split on line feeds
      gives the header, line i + 1 naming recipient i with its response, and
      a final empty piece. */
  predicate OutputLayout(recipients: seq<string>, records: seq<Record>, output: string) {
    |records| == |recipients| && (forall i :: 0 <= i < |records| ==> '\n' !in records[i].response) ==>
      var lines := Split(output);
      |lines| == |recipients| + 2 && lines[0] == OutputHeader && lines[|lines| - 1] == ""
      && forall i :: 0 <= i < |recipients| ==> lines[i + 1] == recipients[i] + "," + records[i].response
  }

  /** What a run that got past the checks and unlocked the wallet does with
      the recipients. It never aborts. It crashes exactly when some transfer
      throws, at the first such transfer, as `CrashedAfter` says. Otherwise
      every recipient is attempted as `RecordsMatch` says, and the output is
      the header and one line per record, laid out as `OutputLayout` says. */
  predicate AttemptedAll(recipients: seq<string>, submit: (nat, string) -> Submission, result: RunResult) {
    && !result.Aborted?
    && (result.Crashed? ==> CrashedAfter(recipients, submit, result.submitted))
    && (result.Completed? <==> NoneHalts(recipients, submit))
    && (result.Completed? ==>
          RecordsMatch(recipients, submit, result.records, result.targets)
          && result.output == Serialize(result.records)
          && OutputLayout(recipients, result.records, result.output))
  }

  /** The output of records that name the recipients in order has the
      layout `OutputLayout` states. */
  lemma OutputLines(recipients: seq<string>, records: seq<Record>)
    requires |records| == |recipients|
    requires forall i :: 0 <= i < |records| ==> records[i].address == recipients[i] && '\n' !in recipients[i]
    ensures OutputLayout(recipients, records, Serialize(records))
  {
    if forall i :: 0 <= i < |records| ==> '\n' !in records[i].response {
      assert SingleLine(records);
      SerializeLines(records);
    }
  }

  /** A run. It stops exactly when the gate does, with the gate's failure,
      before any submission and without output. It crashes before any
      transfer when the wallet does not unlock. Otherwise it attempts every
      recipient of the file as `AttemptedAll` says. */
  method Run(inp: Inputs, submit: (nat, string) -> Submission) returns (result: RunResult)
    ensures result.Aborted? <==> Gate(inp).Abort?
    ensures result.Aborted? ==> result.failure == Gate(inp).failure
    ensures Gate(inp).Proceed? && !inp.walletUnlocks ==> result == Crashed([])
    ensures Gate(inp).Proceed? && inp.walletUnlocks ==> AttemptedAll(Gate(inp).recipients, submit, result)
  {
    if !inp.keyFileExists {
      return Aborted(MissingKeyFile);
    }
    if !IsValidPassphrase(inp.passphrase) {
      return Aborted(InvalidPassphrase);
    }
    if !inp.addressFileExists {
      return Aborted(MissingAddressFile);
    }
    if !inp.amountIsValid {
      return Aborted(InvalidAmount);
    }
    if !inp.urlIsValid {
      return Aborted(InvalidUrl);
    }
    var lines := Preprocess(inp.addressFileText);
    if !IsValidCsv(lines) {
      return Aborted(MalformedCsv(CheckCsv(lines)));
    }
    var recipients := Recipients(lines);
    if !IsConfirmed(inp.confirmation) {
      return Aborted(NotConfirmed);
    }
    assert Gate(inp) == Proceed(recipients);
    if !inp.walletUnlocks {
      return Crashed([]);
    }
    result := Send(recipients, submit);
  }

  /** What `main` does once the checks passed and the wallet is unlocked:
      the send loop, then the output text unless a transfer threw. */
  method Send(recipients: seq<string>, submit: (nat, string) -> Submission)
    returns (result: RunResult)
    requires forall i :: 0 <= i < |recipients| ==> '\n' !in recipients[i]
    ensures AttemptedAll(recipients, submit, result)
  {
    var records, targets, crashed := SendAll(recipients, submit);
    if crashed {
      var n := |records|;
      if submit(n, targets[n]).BuildFailed? {
        result := Crashed(targets[..n]);
      } else {
        result := Crashed(targets);
      }
      assert CrashedAfter(recipients, submit, result.submitted);
      return;
    }
    var output := BuildCsv(records);
    OutputLines(recipients, records);
    result := Completed(records, targets, output);
    assert RecordsMatch(recipients, submit, records, targets);
  }
}
