/** One request served from a store loaded from source text, as both transports do it. */
module Server {
  import opened Strings
  import opened Quotes
  import opened Delivery

  /**
   The response to any request comes from the source text: the bytes the
   client receives before the terminator (before "..." when strict mode cuts
   the quote) are a contiguous slice of the text starting at `off`, and they
   hold no delimiter.
   */
  lemma ServedFromSource(text: seq<byte>, strict: bool, draw: nat) returns (off: nat)
    requires draw < |ParseQuotes(text)|
    ensures var d := RandomQuoteFormattedForDelivery(ParseQuotes(text), strict, draw);
            var quote := ParseQuotes(text)[d.quoteId];
            && !Contains(quote, QuoteDelimiter)
            && (!Truncates(quote, strict) ==>
                  off + |d.response| - |Crlf| <= |text| && Payload(d.response) == text[off..off + |d.response| - |Crlf|])
            && (Truncates(quote, strict) ==>
                  off + TruncatedLength <= |text| && d.response[..TruncatedLength] == text[off..off + TruncatedLength])
  {
    var quotes := ParseQuotes(text);
    off := QuoteInSource(text, draw);
    var d := RandomQuoteFormattedForDelivery(quotes, strict, draw);
    var quote := quotes[draw];
    if !Truncates(quote, strict) {
      assert Payload(d.response) == quote by {
        assert (quote + Crlf)[..|quote|] == quote;
      }
    } else {
      assert text[off..off + TruncatedLength] == text[off..off + |quote|][..TruncatedLength];
    }
  }

  /** An empty source is served, not refused: every request gets the bare terminator. */
  lemma EmptySourceServesTerminator(strict: bool, draw: nat)
    requires draw < |ParseQuotes([])|
    ensures RandomQuoteFormattedForDelivery(ParseQuotes([]), strict, draw).response == Crlf
  {
  }
}
