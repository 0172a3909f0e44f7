/** The check the web app runs on submitted FASTA text before it starts a
    search (`validate_input` in app.py). The FASTA parser and the UNITE
    header decoder belong to the TaxoTagger library and are parameters. */
module Validation {
  import opened Wrappers
  import opened Dicts

  /** A submission with more records than this is refused. */
  const MaxSequences: nat := 100

  /** What the library's FASTA parser gives for a text: the record headers in
      file order, or the message of the ValueError it raises. */
  datatype Parsed = Headers(headers: seq<string>) | ParseFailure(message: string)

  /** The four ways the check refuses a submission, in the order they are tried. */
  datatype ValidationError =
    | ParseError(message: string)
    | DuplicateId(id: string)
    | InvalidHeaders
    | TooManySequences

  /** What an accepted submission leaves in the session. */
  datatype Session = Session(seqIds: seq<string>, fastaContent: string)

  /** The text before the repeated ID in its error message. */
  const DuplicatePrefix := "Duplicate sequence ID found: `"

  /** The text after the backtick that closes the repeated ID. */
  const DuplicateAdvice := "\n\nPlease ensure all sequence IDs are unique."

  /** The text shown to the user before the submission is stopped: a parse
      failure shows the parser's message first, and a repeated ID is quoted
      between backticks after a fixed prefix. */
  function ErrorMessage(e: ValidationError): (m: string)
    ensures e.ParseError? ==> e.message <= m
    ensures e.DuplicateId? ==>
      && |m| > |DuplicatePrefix| + |e.id|
      && m[..|DuplicatePrefix|] == DuplicatePrefix
      && m[|DuplicatePrefix|..|DuplicatePrefix| + |e.id|] == e.id
      && m[|DuplicatePrefix| + |e.id|] == '`'
  {
    match e
    case ParseError(message) => message + "\n\nPlease ensure all FASTA headers are unique."
    case DuplicateId(id) => DuplicatePrefix + id + "`" + DuplicateAdvice
    case InvalidHeaders =>
      "Invalid FASTA header(s) found. Please ensure that each header starts with '>' plus at least one more non-empty character."
    case TooManySequences => "Please limit the number of sequences to 100 or fewer."
  }

  /** The message of a repeated ID tells which ID it was. */
  lemma DuplicateMessageInjective(id: string, id': string)
    requires ErrorMessage(DuplicateId(id)) == ErrorMessage(DuplicateId(id'))
    ensures id == id'
  {
    var tail := "`" + DuplicateAdvice;
    assert ErrorMessage(DuplicateId(id)) == DuplicatePrefix + id + tail;
    assert ErrorMessage(DuplicateId(id')) == DuplicatePrefix + id' + tail;
    assert |id| == |id'|;
  }

  /** The sequence ID of each header, in header order. */
  function DecodeIds(headers: seq<string>, decode: string -> string): seq<string> {
    seq(|headers|, k requires 0 <= k < |headers| => decode(headers[k]))
  }

  /** Position k holds the first element of s that equals an earlier one. */
  predicate IsFirstRepeat<T(==)>(s: seq<T>, k: nat) {
    k < |s| && s[k] in s[..k] && Distinct(s[..k])
  }

  /** The position at which a left-to-right scan first meets an element it
      has already seen, if there is one. */
  function FirstRepeat<T(==)>(s: seq<T>): (r: Option<nat>)
    ensures r.None? <==> Distinct(s)
    ensures r.Some? ==> IsFirstRepeat(s, r.value)
  {
    if |s| == 0 then None
    else
      var init := s[..|s| - 1];
      match FirstRepeat(init)
      case Some(k) =>
        assert init[..k] == s[..k];
        assert !Distinct(s) by {
          var a :| 0 <= a < k && s[..k][a] == s[k];
        }
        Some(k)
      case None =>
        if s[|s| - 1] in init then Some(|s| - 1) else None
  }

  /** There is only one first repeat. */
  lemma FirstRepeatUnique<T>(s: seq<T>, k: nat, k': nat)
    requires IsFirstRepeat(s, k) && IsFirstRepeat(s, k')
    ensures k == k'
  {
  }

  /** Every header is longer than its one-character delimiter. */
  predicate HeadersLong(headers: seq<string>) {
    forall k :: 0 <= k < |headers| ==> |headers[k]| > 1
  }

  /** The number of headers longer than one character (`num_valid_headers`). */
  function CountValid(headers: seq<string>): (n: nat)
    ensures n <= |headers|
    ensures n == |headers| <==> HeadersLong(headers)
  {
    if |headers| == 0 then 0
    else
      var init := headers[..|headers| - 1];
      CountValid(init) + if |headers[|headers| - 1]| > 1 then 1 else 0
  }

  /** The outcome of the check: the checks run in a fixed order and the first
      that fails decides the error; a refusal leaves nothing in the session. */
  function Validate(fastaContent: string, parse: string -> Parsed, decode: string -> string)
    : (r: Result<Session, ValidationError>)
    ensures parse(fastaContent).ParseFailure? ==>
      r == Err(ParseError(parse(fastaContent).message))
    ensures parse(fastaContent).Headers? ==>
      var hs := parse(fastaContent).headers;
      var ids := DecodeIds(hs, decode);
      && (r.Err? && r.error.DuplicateId? <==> !Distinct(ids))
      && (r.Err? && r.error.DuplicateId? ==> exists k: nat :: IsFirstRepeat(ids, k) && r.error.id == ids[k])
      && (r == Err(InvalidHeaders) <==> Distinct(ids) && !HeadersLong(hs))
      && (r == Err(TooManySequences) <==> Distinct(ids) && HeadersLong(hs) && |hs| > MaxSequences)
      && (r.Ok? <==> Distinct(ids) && HeadersLong(hs) && |hs| <= MaxSequences)
      && (r.Ok? ==> r.value == Session(ids, fastaContent) && |r.value.seqIds| == |hs|)
  {
    match parse(fastaContent)
    case ParseFailure(message) => Err(ParseError(message))
    case Headers(hs) =>
      var ids := DecodeIds(hs, decode);
      match FirstRepeat(ids)
      case Some(k) => Err(DuplicateId(ids[k]))
      case None =>
        if CountValid(hs) != |hs| then Err(InvalidHeaders)
        else if |hs| > MaxSequences then Err(TooManySequences)
        else Ok(Session(ids, fastaContent))
  }

  /** `validate_input`: collects the IDs in a loop, stopping at the first one
      already collected, then counts the valid headers, then caps the count. */
  method ValidateInput(fastaContent: string, parse: string -> Parsed, decode: string -> string)
    returns (r: Result<Session, ValidationError>)
    ensures r == Validate(fastaContent, parse, decode)
  {
    var parsed := parse(fastaContent);
    if parsed.ParseFailure? {
      return Err(ParseError(parsed.message));
    }
    var headers := parsed.headers;
    ghost var ids := DecodeIds(headers, decode);
    var seqIds: seq<string> := [];
    for i := 0 to |headers|
      invariant seqIds == ids[..i]
      invariant Distinct(seqIds)
    {
      var seqId := decode(headers[i]);
      if seqId !in seqIds {
        seqIds := seqIds + [seqId];
      } else {
        assert IsFirstRepeat(ids, i);
        FirstRepeatUnique(ids, i, FirstRepeat(ids).value);
        return Err(DuplicateId(seqId));
      }
    }
    assert seqIds == ids;

    var numSeqs := |headers|;
    var numValidHeaders := 0;
    for i := 0 to |headers|
      invariant numValidHeaders == CountValid(headers[..i])
    {
      assert headers[..i + 1][..i] == headers[..i];
      if |headers[i]| > 1 {
        numValidHeaders := numValidHeaders + 1;
      }
    }
    assert headers[..|headers|] == headers;

    if numValidHeaders != numSeqs {
      return Err(InvalidHeaders);
    }
    if numSeqs > MaxSequences {
      return Err(TooManySequences);
    }
    return Ok(Session(seqIds, fastaContent));
  }
}
