/**
 RFC 865 response formatting and quote selection. The random draw of the
 server is a parameter here: `draw` stands for the value `rand.Intn` returned.
 */
module Delivery {
  import opened Strings

  /** The message length limit of RFC 865 that strict mode enforces. */
  const RFC865MaxLength: nat := 512

  /** Bytes of an over-long quote kept in strict mode: room is left for "..." and CR LF. */
  const TruncatedLength: nat := RFC865MaxLength - 6

  /** "...", appended to a truncated quote. */
  const Ellipsis: seq<byte> := [46, 46, 46]

  /** CR LF, the terminator of every response. */
  const Crlf: seq<byte> := [13, 10]

  /** Strict mode cuts `quote` short: the length test is on the quote alone, before CR LF. */
  predicate Truncates(quote: seq<byte>, strict: bool) {
    strict && |quote| > RFC865MaxLength
  }

  /** The bytes written to the client for `quote`. */
  function FormatQuote(quote: seq<byte>, strict: bool): (response: seq<byte>)
    ensures |response| >= |Crlf| && response[|response| - |Crlf|..] == Crlf
    ensures !Truncates(quote, strict) ==> response == quote + Crlf
    ensures Truncates(quote, strict) ==>
      && |response| == RFC865MaxLength - 1
      && response[..TruncatedLength] == quote[..TruncatedLength]
      && response[TruncatedLength..] == Ellipsis + Crlf
    ensures strict ==> |response| <= RFC865MaxLength + |Crlf|
  {
    var body := if Truncates(quote, strict) then quote[..TruncatedLength] + Ellipsis else quote;
    body + Crlf
  }

  /** A response without its CR LF terminator, as a client reads it. */
  function Payload(response: seq<byte>): (payload: seq<byte>)
    requires |response| >= |Crlf|
    ensures payload + Crlf == response <==> response[|response| - |Crlf|..] == Crlf
  {
    response[..|response| - |Crlf|]
  }

  /** A client that strips the terminator of a lax-mode response gets the quote back. */
  lemma PayloadOfLax(quote: seq<byte>)
    ensures Payload(FormatQuote(quote, false)) == quote
  {
  }

  /** A strict-mode payload is never cut again: strict formatting is idempotent. */
  lemma StrictIdempotent(quote: seq<byte>)
    ensures FormatQuote(Payload(FormatQuote(quote, true)), true) == FormatQuote(quote, true)
  {
  }

  /** Strict and lax mode agree on every quote of at most 512 bytes. */
  lemma StrictAgreesOnShortQuotes(quote: seq<byte>)
    requires |quote| <= RFC865MaxLength
    ensures FormatQuote(quote, true) == FormatQuote(quote, false) == quote + Crlf
  {
  }

  /** Lax mode tells quotes apart: different quotes give different responses. */
  lemma LaxInjective(q1: seq<byte>, q2: seq<byte>)
    ensures FormatQuote(q1, false) == FormatQuote(q2, false) <==> q1 == q2
  {
  }

  /** Two over-long quotes give the same strict response exactly when their first 506 bytes agree. */
  lemma StrictCollision(q1: seq<byte>, q2: seq<byte>)
    requires |q1| > RFC865MaxLength && |q2| > RFC865MaxLength
    ensures FormatQuote(q1, true) == FormatQuote(q2, true) <==> q1[..TruncatedLength] == q2[..TruncatedLength]
  {
  }

  /** An empty quote is served as the bare terminator, in either mode. */
  lemma EmptyQuote(strict: bool)
    ensures FormatQuote([], strict) == Crlf
  {
  }

  /**
   The 512-byte test precedes the terminator, so a strict-mode response can be
   two bytes over the limit: a 512-byte quote is served as 514 bytes.
   */
  lemma StrictResponseCanExceedLimit()
    ensures |FormatQuote(seq(RFC865MaxLength, _ => 65 as byte), true)| == RFC865MaxLength + 2
  {
  }

  /**
   Truncation counts bytes, not characters: for "A" followed by 256 copies of
   the two-byte UTF-8 character U+00E9, the last byte kept is the lead byte 0xC3
   and the continuation byte that completed it is gone.
   */
  lemma TruncationSplitsCharacter()
    ensures var quote := seq(513, i => if i == 0 then 65 else if i % 2 == 1 then 0xC3 else 0xA9);
            var response := FormatQuote(quote, true);
            && quote[TruncatedLength - 1] == 0xC3 && quote[TruncatedLength] == 0xA9
            && response[TruncatedLength - 1] == 0xC3 && response[TruncatedLength] == 46
  {
  }

  /** What one request yields: the response bytes and the index of the quote served. */
  datatype QuoteDelivery = QuoteDelivery(response: seq<byte>, quoteId: nat)

  /**
   One request: take the quote at the drawn index and format it. An empty
   store is excluded because `rand.Intn` panics on zero.
   */
  function RandomQuoteFormattedForDelivery(quotes: seq<seq<byte>>, strict: bool, draw: nat): (d: QuoteDelivery)
    requires |quotes| > 0
    requires draw < |quotes|
    ensures d.quoteId == draw < |quotes|
    ensures |d.response| >= |Crlf| && d.response[|d.response| - |Crlf|..] == Crlf
    ensures !strict ==> d.response == quotes[d.quoteId] + Crlf
    ensures strict ==> |d.response| <= RFC865MaxLength + |Crlf|
    ensures Truncates(quotes[d.quoteId], strict) ==> |d.response| < RFC865MaxLength
    ensures d.response == FormatQuote(quotes[d.quoteId], strict)
  {
    var quoteId := draw;
    QuoteDelivery(FormatQuote(quotes[quoteId], strict), quoteId)
  }
}
