/** The recipient file: how its text becomes lines (src/index.ts:54), the
    structural check `isValidCsv` (src/index.ts:162-178) and the recipient
    list taken after the header (src/index.ts:62). */
module RecipientCsv {
  import opened Lines

  /** The literal first line of a recipient file. */
  const Header: string := "address"
  /** Every recipient address has exactly this many characters. */
  const AddressLength: nat := 40
  /** At most this many recipients are accepted in one run. */
  const MaxRecipients: nat := 1000

  /** Why `isValidCsv` rejected a file, or that it accepted it. The source
      reports each rejection on the console before returning false. */
  datatype CsvVerdict =
    | Accepted
    | BadHeader
    | BadAddresses(invalid: seq<string>)
    | TooManyAddresses(count: nat)

  /** Trims every line, keeping their number and order. */
  function TrimAll(pieces: seq<string>): (lines: seq<string>)
    ensures |lines| == |pieces|
    ensures forall i :: 0 <= i < |pieces| ==> lines[i] == Trim(pieces[i])
  {
    if pieces == [] then [] else [Trim(pieces[0])] + TrimAll(pieces[1..])
  }

  /** `receiverData.split('\n').map(line => line.trim())`: there is always
      a first line (the header), no line keeps whitespace at either end, no
      line holds a line feed, and each line is the trimmed piece of the file
      at the same position. */
  function Preprocess(data: string): (lines: seq<string>)
    ensures |lines| == |Split(data)| && |lines| >= 1
    ensures forall i :: 0 <= i < |lines| ==> Trimmed(lines[i]) && '\n' !in lines[i]
    ensures forall i :: 0 <= i < |lines| ==> lines[i] == Trim(Split(data)[i])
  {
    var lines := TrimAll(Split(data));
    assert forall i :: 0 <= i < |lines| ==> '\n' !in lines[i] by {
      forall i | 0 <= i < |lines| ensures '\n' !in lines[i] {
        TrimNoLineFeed(Split(data)[i]);
      }
    }
    lines
  }

  /** `receiverAddressesFile.slice(1)`: every line after the header, in file order. */
  function Recipients(lines: seq<string>): (recipients: seq<string>)
    ensures |recipients| == if lines == [] then 0 else |lines| - 1
    ensures forall i :: 0 <= i < |recipients| ==> recipients[i] == lines[i + 1]
  {
    if lines == [] then [] else lines[1..]
  }

  /** `filter(address => address.length !== 40)`: the lines of the wrong
      length, in their original order (`WrongLengthOfConcat` and
      `WrongLengthOfOne` pin the order and the count down). */
  function WrongLength(lines: seq<string>): (invalid: seq<string>)
    ensures |invalid| <= |lines|
    ensures forall k :: 0 <= k < |invalid| ==> |invalid[k]| != AddressLength && invalid[k] in lines
    ensures forall i :: 0 <= i < |lines| && |lines[i]| != AddressLength ==> lines[i] in invalid
    ensures invalid == [] <==> forall i :: 0 <= i < |lines| ==> |lines[i]| == AddressLength
  {
    if lines == [] then []
    else if |lines[0]| != AddressLength then [lines[0]] + WrongLength(lines[1..])
    else WrongLength(lines[1..])
  }

  /** A single line is reported exactly when its length is wrong. */
  lemma WrongLengthOfOne(line: string)
    ensures WrongLength([line]) == if |line| != AddressLength then [line] else []
  {
    assert [line][1..] == [];
  }

  /** Filtering a concatenation filters each part and keeps them in order;
      with `WrongLengthOfOne` this determines the result on every input:
      each wrong-length line appears once per occurrence, in file order. */
  lemma {:induction false} WrongLengthOfConcat(a: seq<string>, b: seq<string>)
    ensures WrongLength(a + b) == WrongLength(a) + WrongLength(b)
    decreases |a|
  {
    if a != [] {
      assert (a + b)[0] == a[0];
      assert (a + b)[1..] == a[1..] + b;
      WrongLengthOfConcat(a[1..], b);
    } else {
      assert a + b == b;
    }
  }

  /** `isValidCsv`, with the reason for a rejection. The three checks run in
      the source's order: a wrong header is reported whatever the data lines
      are; a wrong-length line is reported before the count, so an oversized
      file is reported for its size only when every line has 40 characters.
      An empty line after the header is a data line of length 0: it is never
      skipped. */
  function CheckCsv(lines: seq<string>): (v: CsvVerdict)
    ensures v == BadHeader <==> (lines == [] || lines[0] != Header)
    ensures v.BadAddresses? <==>
      |lines| >= 1 && lines[0] == Header
      && exists i :: 1 <= i < |lines| && |lines[i]| != AddressLength
    ensures v.BadAddresses? ==>
      (forall k :: 0 <= k < |v.invalid| ==> |v.invalid[k]| != AddressLength && v.invalid[k] in lines[1..])
      && (forall i :: 1 <= i < |lines| && |lines[i]| != AddressLength ==> lines[i] in v.invalid)
    ensures v.TooManyAddresses? <==>
      |lines| >= 1 && lines[0] == Header
      && (forall i :: 1 <= i < |lines| ==> |lines[i]| == AddressLength)
      && |lines| - 1 > MaxRecipients
    ensures v.TooManyAddresses? ==> v.count == |lines| - 1
    ensures v == Accepted <==>
      |lines| >= 1 && lines[0] == Header
      && (forall i :: 1 <= i < |lines| ==> |lines[i]| == AddressLength)
      && |lines| - 1 <= MaxRecipients
  {
    if lines == [] || lines[0] != Header then BadHeader
    else
      var invalid := WrongLength(lines[1..]);
      assert forall i :: 1 <= i < |lines| ==> lines[i] == lines[1..][i - 1];
      if invalid != [] then BadAddresses(invalid)
      else if |lines| - 1 > MaxRecipients then TooManyAddresses(|lines| - 1)
      else Accepted
  }

  /** `isValidCsv`: true exactly when the header is `address`, every data
      line has exactly 40 characters and there are at most 1000 of them. */
  function IsValidCsv(lines: seq<string>): (ok: bool)
    ensures ok <==>
      |lines| >= 1 && lines[0] == Header
      && (forall i :: 1 <= i < |lines| ==> |lines[i]| == AddressLength)
      && |lines| - 1 <= MaxRecipients
  {
    CheckCsv(lines) == Accepted
  }

  /** A file that ends in a line feed is always rejected: its last line is
      empty, so it fails the length test (or, for the file "\n" alone, the
      header test). */
  lemma TrailingLineFeedRejected(data: string)
    ensures !IsValidCsv(Preprocess(data + "\n"))
  {
    SplitTrailingLineFeed(data);
    var lines := Preprocess(data + "\n");
    var last := |lines| - 1;
    assert Split(data + "\n")[last] == "";
    assert lines[last] == "";
  }

  /** A file written as the header line followed by up to 1000 trimmed
      40-character addresses, one per line and without a final line feed,
      is accepted, and its recipients are exactly those addresses in order. */
  lemma WellFormedFileAccepted(addresses: seq<string>)
    requires |addresses| <= MaxRecipients
    requires forall i :: 0 <= i < |addresses| ==>
      |addresses[i]| == AddressLength && '\n' !in addresses[i] && Trimmed(addresses[i])
    ensures IsValidCsv(Preprocess(Join([Header] + addresses)))
    ensures Recipients(Preprocess(Join([Header] + addresses))) == addresses
  {
    var pieces := [Header] + addresses;
    assert forall i :: 0 <= i < |pieces| ==> '\n' !in pieces[i] && Trimmed(pieces[i]);
    SplitJoin(pieces);
    TrimAllFixed(pieces);
    assert Preprocess(Join(pieces)) == pieces;
  }

  /** Lines that are already trimmed are left as they are. */
  lemma {:induction false} TrimAllFixed(pieces: seq<string>)
    requires forall i :: 0 <= i < |pieces| ==> Trimmed(pieces[i])
    ensures TrimAll(pieces) == pieces
  {
    if pieces != [] {
      TrimFixed(pieces[0]);
      TrimAllFixed(pieces[1..]);
      assert TrimAll(pieces) == [Trim(pieces[0])] + TrimAll(pieces[1..]);
      assert pieces == [pieces[0]] + pieces[1..];
    }
  }
}
