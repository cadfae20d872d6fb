/** The checks `main` runs before it sends anything (src/index.ts:23-75).
    What the script cannot decide itself is given as input: whether the two
    files are accessible (`isValidFilePath`), whether the amount parses as a
    positive number (`isValidAmount`) and whether the provider URL parses
    (`isValidUrl`). The passphrase, the recipient file's text and the answer
    to the confirmation question are concrete strings. */
module Preflight {
  import opened Lines
  import opened RecipientCsv

  /** Everything `main` has collected when it starts checking, and whether
      `KeyManager.fromPPK` will unlock the wallet with the passphrase (it
      throws otherwise; the gate does not look at this). */
  datatype Inputs = Inputs(
    keyFileExists: bool,
    passphrase: string,
    addressFileExists: bool,
    amountIsValid: bool,
    urlIsValid: bool,
    addressFileText: string,
    confirmation: string,
    walletUnlocks: bool)

  /** The reason `main` gives up, one per early return. */
  datatype Failure =
    | MissingKeyFile
    | InvalidPassphrase
    | MissingAddressFile
    | InvalidAmount
    | InvalidUrl
    | MalformedCsv(verdict: CsvVerdict)
    | NotConfirmed

  /** Either stop with the first failure, or go on to send to these recipients. */
  datatype Decision = Abort(failure: Failure) | Proceed(recipients: seq<string>)

  /** `isValidPassphrase`: any non-empty passphrase is accepted. */
  function IsValidPassphrase(passphrase: string): (ok: bool)
    ensures ok <==> passphrase != []
  {
    |passphrase| > 0
  }

  /** `["y", "yes"].includes(confirm)`: only these two exact answers confirm;
      case and surrounding spaces matter. */
  function IsConfirmed(answer: string): (ok: bool)
    ensures ok <==> answer == "y" || answer == "yes"
    ensures answer == "Y" || answer == "Yes" || answer == "YES" || answer == "yes " || answer == " y" ==> !ok
  {
    answer in ["y", "yes"]
  }

  /** The decision of `main`'s checks, in the order `main` runs them. */
  function Gate(inp: Inputs): (d: Decision)
    ensures d.Proceed? <==>
      inp.keyFileExists && inp.passphrase != [] && inp.addressFileExists
      && inp.amountIsValid && inp.urlIsValid
      && IsValidCsv(Preprocess(inp.addressFileText))
      && (inp.confirmation == "y" || inp.confirmation == "yes")
    ensures d.Proceed? ==> d.recipients == Recipients(Preprocess(inp.addressFileText))
    ensures d.Proceed? ==> |d.recipients| <= MaxRecipients
    ensures d.Proceed? ==> forall i :: 0 <= i < |d.recipients| ==>
      |d.recipients[i]| == AddressLength && Trimmed(d.recipients[i]) && '\n' !in d.recipients[i]
  {
    if !inp.keyFileExists then Abort(MissingKeyFile)
    else if !IsValidPassphrase(inp.passphrase) then Abort(InvalidPassphrase)
    else if !inp.addressFileExists then Abort(MissingAddressFile)
    else if !inp.amountIsValid then Abort(InvalidAmount)
    else if !inp.urlIsValid then Abort(InvalidUrl)
    else
      var lines := Preprocess(inp.addressFileText);
      if !IsValidCsv(lines) then Abort(MalformedCsv(CheckCsv(lines)))
      else if !IsConfirmed(inp.confirmation) then Abort(NotConfirmed)
      else Proceed(Recipients(lines))
  }

  /** One check of the gate: the failure it reports and whether it passed. */
  datatype Check = Check(failure: Failure, passed: bool)

  /** The seven checks as an ordered list: key file, passphrase, address
      file, amount, URL, recipient file (with its verdict), confirmation. */
  function Checks(inp: Inputs): (cs: seq<Check>)
    ensures |cs| == 7
    ensures cs[0].failure == MissingKeyFile && cs[1].failure == InvalidPassphrase
      && cs[2].failure == MissingAddressFile && cs[3].failure == InvalidAmount
      && cs[4].failure == InvalidUrl && cs[5].failure.MalformedCsv?
      && cs[6].failure == NotConfirmed
    ensures cs[5].failure.verdict == CheckCsv(Preprocess(inp.addressFileText))
  {
    var lines := Preprocess(inp.addressFileText);
    var cs := [ Check(MissingKeyFile, inp.keyFileExists),
      Check(InvalidPassphrase, IsValidPassphrase(inp.passphrase)),
      Check(MissingAddressFile, inp.addressFileExists),
      Check(InvalidAmount, inp.amountIsValid),
      Check(InvalidUrl, inp.urlIsValid),
      Check(MalformedCsv(CheckCsv(lines)), IsValidCsv(lines)),
      Check(NotConfirmed, IsConfirmed(inp.confirmation)) ];
    cs
  }

  /** Position of the first check that did not pass (the length of the list
      when all passed). */
  function FirstFailed(cs: seq<Check>): (k: nat)
    ensures k <= |cs|
    ensures forall j :: 0 <= j < k ==> cs[j].passed
    ensures k < |cs| ==> !cs[k].passed
  {
    if cs == [] || !cs[0].passed then 0 else 1 + FirstFailed(cs[1..])
  }

  /** The gate stops at the first failing check of the list, reporting that
      check's failure, and proceeds only when the whole list passes: no
      later check can change the outcome of an earlier failure. */
  lemma GateStopsAtFirstFailure(inp: Inputs)
    ensures var k := FirstFailed(Checks(inp));
      Gate(inp) == if k < 7 then Abort(Checks(inp)[k].failure)
                   else Proceed(Recipients(Preprocess(inp.addressFileText)))
  {
    var cs := Checks(inp);
    var lines := Preprocess(inp.addressFileText);
    var i := if !inp.keyFileExists then 0
      else if !IsValidPassphrase(inp.passphrase) then 1
      else if !inp.addressFileExists then 2
      else if !inp.amountIsValid then 3
      else if !inp.urlIsValid then 4
      else if !IsValidCsv(lines) then 5
      else if !IsConfirmed(inp.confirmation) then 6
      else 7;
    assert cs[0].passed == inp.keyFileExists;
    assert cs[1].passed == IsValidPassphrase(inp.passphrase);
    assert cs[2].passed == inp.addressFileExists;
    assert cs[3].passed == inp.amountIsValid;
    assert cs[4].passed == inp.urlIsValid;
    assert cs[5].passed == IsValidCsv(lines);
    assert cs[6].passed == IsConfirmed(inp.confirmation);
    forall j | 0 <= j < i ensures cs[j].passed {
      assert j == 0 || j == 1 || j == 2 || j == 3 || j == 4 || j == 5 || j == 6;
    }
    FirstFailedIs(cs, i);
  }

  /** The first failing position is the one before which everything passed. */
  lemma FirstFailedIs(cs: seq<Check>, i: nat)
    requires i <= |cs|
    requires forall j :: 0 <= j < i ==> cs[j].passed
    requires i < |cs| ==> !cs[i].passed
    ensures FirstFailed(cs) == i
  {
  }

  /** Every check passes exactly when the gate lets the run proceed. */
  lemma AllChecksPassExactlyOnProceed(inp: Inputs)
    ensures (forall k :: 0 <= k < |Checks(inp)| ==> Checks(inp)[k].passed) <==> Gate(inp).Proceed?
  {
    GateStopsAtFirstFailure(inp);
  }
}
