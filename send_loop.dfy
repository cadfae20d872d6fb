/** The send loop of `main` (src/index.ts:99-123): one transfer per
    recipient, strictly in file order, each failed submission caught and
    recorded so that the loop goes on. The SDK's `send`/`submit` pair, and
    the `JSON.stringify` of a caught error, are an oracle that says, for the
    i-th transfer and its target address, what happened: accepted (with its
    transaction hash); rejected by `submit` (with the error text
    `JSON.stringify` produced); `send` threw while building the message; or
    `submit` threw and `JSON.stringify` threw in turn (an error value with a
    circular reference or a BigInt). `send` runs outside the `try` and
    `JSON.stringify` inside the `catch`, so the last two end the loop and
    the whole of `main`. */
module SendLoop {

  /** What happened to one transfer: `submit` returned a hash; `submit`
      threw and the error was stringified; `send` threw before `submit` was
      reached; or `submit` threw and stringifying the error threw too. */
  datatype Submission =
    | Submitted(txHash: string)
    | Rejected(error: string)
    | BuildFailed(error: string)
    | ErrorNotSerializable

  /** The two outcomes that escape the loop, and `main`, as exceptions. */
  predicate Halts(outcome: Submission) {
    outcome.BuildFailed? || outcome.ErrorNotSerializable?
  }

  /** One entry of the `responses` array: the address as read from the file
      and the hash or error text for it. */
  datatype Record = Record(address: string, response: string)

  /** Prefix of the response recorded for a failed submission. */
  const ErrorPrefix: string := "ERROR: "

  /** `toLowerCase` on one character, for the ASCII letters. */
  function LowerAscii(c: char): (l: char)
    ensures 'A' <= c <= 'Z' ==> 'a' <= l <= 'z' && l as int - c as int == 32
    ensures !('A' <= c <= 'Z') ==> l == c
  {
    if 'A' <= c <= 'Z' then (c as int + 32) as char else c
  }

  /** `addr.toLowerCase()`, restricted to ASCII: same length, each upper-case
      letter replaced by its lower-case partner, every other character kept. */
  function ToLower(s: string): (r: string)
    ensures |r| == |s|
    ensures forall i :: 0 <= i < |s| ==> r[i] == LowerAscii(s[i])
  {
    if s == [] then [] else [LowerAscii(s[0])] + ToLower(s[1..])
  }

  /** Lower-casing an address that is already lower-case changes nothing, so
      lower-casing twice is lower-casing once. */
  lemma {:induction false} ToLowerIdempotent(s: string)
    ensures ToLower(ToLower(s)) == ToLower(s)
  {
    var once := ToLower(s);
    var twice := ToLower(once);
    forall i | 0 <= i < |s| ensures twice[i] == once[i] {
      assert !('A' <= once[i] <= 'Z');
    }
  }

  /** No transfer ends the loop with an exception. */
  predicate NoneHalts(recipients: seq<string>, submit: (nat, string) -> Submission) {
    forall i :: 0 <= i < |recipients| ==> !Halts(submit(i, ToLower(recipients[i])))
  }

  /** Transfer n is the first one that throws out of the send loop. */
  predicate HaltsAt(recipients: seq<string>, submit: (nat, string) -> Submission, n: nat) {
    && n < |recipients|
    && Halts(submit(n, ToLower(recipients[n])))
    && forall i :: 0 <= i < n ==> !Halts(submit(i, ToLower(recipients[i])))
  }

  /** The send loop. For every recipient, in order, the message to the
      lower-cased address is built and submitted; the record keeps the
      address as written in the file and holds the transaction hash on
      success or "ERROR: " and the error text when `submit` failed. Record i
      depends on nothing but recipient i and transfer i, so a rejection
      changes no other record, and no recipient is skipped, repeated or
      reordered. The loop stops (`crashed`) exactly when some transfer
      throws out of it, from `send` or from `JSON.stringify`, at the first
      such recipient; `targets` then ends with that recipient's address. */
  method SendAll(recipients: seq<string>, submit: (nat, string) -> Submission)
    returns (records: seq<Record>, targets: seq<string>, crashed: bool)
    ensures |records| <= |recipients|
    ensures crashed <==> |records| < |recipients|
    ensures crashed <==> !NoneHalts(recipients, submit)
    ensures |targets| == if crashed then |records| + 1 else |records|
    ensures forall i :: 0 <= i < |targets| ==> targets[i] == ToLower(recipients[i])
    ensures crashed ==> HaltsAt(recipients, submit, |records|)
    ensures forall i :: 0 <= i < |records| ==>
      records[i].address == recipients[i]
      && match submit(i, targets[i])
         case Submitted(hash) => records[i].response == hash
         case Rejected(error) => records[i].response == ErrorPrefix + error
         case BuildFailed(_) => false
         case ErrorNotSerializable => false
  {
    records, targets, crashed := [], [], false;
    for i := 0 to |recipients|
      invariant |records| == i && |targets| == i
      invariant forall j :: 0 <= j < i ==> targets[j] == ToLower(recipients[j])
      invariant forall j :: 0 <= j < i ==>
        records[j].address == recipients[j]
        && match submit(j, targets[j])
           case Submitted(hash) => records[j].response == hash
           case Rejected(error) => records[j].response == ErrorPrefix + error
           case BuildFailed(_) => false
           case ErrorNotSerializable => false
    {
      var addr := recipients[i];
      var target := ToLower(addr);
      targets := targets + [target];
      match submit(i, target) {
        case BuildFailed(_) =>
          crashed := true;
          return;
        case ErrorNotSerializable =>
          crashed := true;
          return;
        case Submitted(hash) =>
          records := records + [Record(addr, hash)];
        case Rejected(error) =>
          records := records + [Record(addr, ErrorPrefix + error)];
      }
    }
  }
}
