# QOTD server core in Dafny

A model of the protocol logic of a Quote of the Day server (RFC 865), taken
apart from its sockets and goroutines:

- **Quote loading** (`strings.dfy`, `quotes.dfy`): the source text, a file
  body or an HTTP response body, is split on the delimiter line `"\n%\n"` into
  the ordered quote list. `Strings` models Go's `strings.Index`, `strings.Split`
  (non-empty separator) and `strings.Join` on byte strings. `Quotes` applies
  them to the quote delimiter.
- **Response formatting and selection** (`delivery.dfy`): a quote becomes
  the bytes written to the client. In strict mode, a quote longer than 512
  bytes keeps its first 506 bytes and gets `"..."` appended. Every response
  then gets `"\r\n"`. Selection takes the quote at a drawn index.
- **One request end to end** (`server.dfy`): the bytes a client receives
  come verbatim from the source text.
- **Startup** (`startup.dfy`): how the parsed flags resolve into a serving
  configuration. Strict mode forces port `"17"` and turns both transports on.
  A configuration with neither transport on is fatal. The mDNS record always
  names port 3333. `Launch` lists the ordered effects of the startup action.

Go strings are byte strings, so quotes are `seq<byte>`. Truncation cuts at a
byte offset and can split a multi-byte UTF-8 character
(`Delivery.TruncationSplitsCharacter`). Ports, hostnames, the mDNS service
type and TXT entries are `string`, because the code never slices them. The
mDNS port is an `int` and its address list holds one 4-byte address.

The random draw (`rand.Intn(len(quotes))`) becomes the parameter `draw`, with
`draw < |quotes|`. `rand.Intn` panics on an empty list, so the store must be
non-empty. `Quotes.ParseQuotes` shows that this always holds for a loaded
store.

Two consequences of the code are worth stating:

- The loader never checks for an empty quote list, and it does not need to:
  `strings.Split` never returns one. An empty source gives one empty quote,
  served as the bare `"\r\n"` (`Server.EmptySourceServesTerminator`).
- In strict mode, the 512-byte test is applied to the quote before the
  terminator is added. Quotes of 510 to 512 bytes therefore produce responses
  of 512 to 514 bytes (`Delivery.StrictResponseCanExceedLimit`). Only truncated
  responses are certain to be shorter than 512 bytes (511 exactly).

## Model

| member | source | states |
|---|---|---|
| Strings.Index | qotd.go:223 | The separator search inside `strings.Split`: returns -1 exactly when the separator does not occur; otherwise returns an occurrence with no earlier one. |
| Strings.Split | qotd.go:223 | Splitting with a non-empty separator never gives an empty list, and the list is canonical: each piece but the last ends right where the next separator begins, and the last piece holds no separator. |
| Strings.JoinSplit | qotd.go:232 | Re-joining the pieces of a split with the separator gives back the original text. |
| Strings.SplitPiecesFree | qotd.go:232 | No piece of a split contains the separator. |
| Strings.SplitCons | qotd.go:223 | A piece that ends right before the separator, followed by the separator and any text, splits into that piece followed by the split of the text. |
| Strings.SplitJoin | qotd.go:223 | Splitting the join of a canonical list gives back the list, so split and join are inverse bijections between texts and canonical lists. |
| Strings.PieceInJoin | qotd.go:232 | Every piece of a list occurs verbatim in the joined text, at the offset the lemma returns. |
| Quotes.ParseQuotes | qotd.go:227-234 | The quote list is never empty and is the canonical split of the text (so it is the only canonical list joining to it), no quote contains `"\n%\n"`, and re-joining the quotes with the delimiter gives back the source text. |
| Quotes.DelimiterBoundary | qotd.go:232 | A quote can be written before the delimiter and read back unchanged iff it has no delimiter inside it and does not end in `"\n%"`. |
| Quotes.ParseJoin | qotd.go:223 | Writing out a canonical quote list with delimiters and loading it again gives the same list. |
| Quotes.QuoteInSource | qotd.go:232 | Every loaded quote is a contiguous slice of the source text. |
| Quotes.ParseExample | qotd.go:232 | `"A\n%\nB\n%\nC"` loads as `["A", "B", "C"]`. |
| Quotes.SplitExample | qotd.go:232 | Any three one-byte quotes (a line break included) joined with the delimiter split back into the same three quotes in order. |
| Quotes.EmptySourceHoldsOneEmptyQuote | qotd.go:228-233 | An empty source yields one empty quote, not an empty store. |
| Delivery.FormatQuote | qotd.go:197-203 | Every response ends in CR LF. Outside strict mode, or when the quote has at most 512 bytes, the response is the quote plus CR LF. A strict-mode quote over 512 bytes gives a 511-byte response: its first 506 bytes, then `"..."`, then CR LF. Strict responses never exceed 514 bytes. |
| Delivery.Payload | qotd.go:203 | Stripping the terminator inverts appending it, for exactly the responses that end in CR LF. |
| Delivery.PayloadOfLax | qotd.go:203 | Outside strict mode, a client that strips CR LF recovers the quote exactly. |
| Delivery.StrictIdempotent | qotd.go:197-203 | Formatting the payload of a strict response again in strict mode gives the same bytes, so nothing is truncated twice. |
| Delivery.StrictAgreesOnShortQuotes | qotd.go:197 | For quotes of at most 512 bytes, strict and lax mode produce the same response. |
| Delivery.LaxInjective | qotd.go:203 | Outside strict mode, two quotes give the same response iff they are equal. |
| Delivery.StrictCollision | qotd.go:197-200 | Two quotes over 512 bytes give the same strict response iff their first 506 bytes agree. |
| Delivery.EmptyQuote | qotd.go:203 | An empty quote is served as exactly `"\r\n"` in either mode. |
| Delivery.StrictResponseCanExceedLimit | qotd.go:197-203 | A 512-byte quote is not truncated, and its strict response is 514 bytes long. |
| Delivery.TruncationSplitsCharacter | qotd.go:199 | Truncation counts bytes: a quote of two-byte UTF-8 characters can lose a continuation byte while its lead byte is kept. |
| Delivery.RandomQuoteFormattedForDelivery | qotd.go:194-205 | Given a non-empty store, the returned id is the drawn index and lies in range. The response is the formatted quote at that index, and it ends in CR LF. Outside strict mode it is that quote plus CR LF. In strict mode it is at most 514 bytes, and under 512 when the quote was truncated. |
| Server.ServedFromSource | qotd.go:180-181 | The bytes a client receives before the terminator come verbatim from the source text. When the quote is truncated, this holds for the bytes before `"..."`. The served quote holds no delimiter. |
| Server.EmptySourceServesTerminator | qotd.go:232 | A server loaded from an empty source answers every request with `"\r\n"`. |
| Startup.ResolveSettings | qotd.go:49-61 | Strict mode gives port `"17"` with TCP and UDP both on, whatever the other flags say. Otherwise the port is the flag value, and each transport is on iff its `no-` flag is off. The result is always consistent with strict mode. |
| Startup.ResolveConfig | qotd.go:76-83 | Resolution fails, with the no-transport error, iff strict mode is off and both `no-tcp` and `no-udp` are set. A successful resolution has at least one transport on. |
| Startup.ResolveSettingsRoundTrip | qotd.go:52-61 | A configuration can be produced from flags iff it is consistent with strict mode. |
| Startup.StrictOverridesFlags | qotd.go:57-61 | In strict mode, the port and transport flags do not change the resolved configuration, and resolution always succeeds. |
| Startup.AdvertiseQotdService | qotd.go:89-103 | The mDNS record names the host and service type `_qotd._tcp`, lists the single address 0.0.0.0 and the TXT entry `"Local web server"`, and its port is always 3333. |
| Startup.AdvertisementIgnoresConfiguration | qotd.go:89-98 | The advertised record does not depend on the transports or on the configured port. |
| Startup.Announcement | qotd.go:63-66 | Startup makes one advertisement iff mDNS is enabled, and it is exactly the `AdvertiseQotdService` record for the resolved transports, port and host (so it names port 3333). |
| Startup.Listeners | qotd.go:68-74 | Startup starts the UDP listener iff UDP is on and the TCP listener iff TCP is on, each at most once, UDP first. Both use the resolved port and the strict flag, and no listener starts when both transports are off. |
| Startup.StartEffects | qotd.go:63-83 | After loading, there is one effect per enabled step plus a final one. Everything before the final effect is an advertisement or a listener, so startup never stops or fails early. The final effect is staying alive iff a transport is on, and failing with the no-transport error otherwise. Startup advertises iff mDNS is enabled, and only the `AdvertiseQotdService` record on port 3333. The UDP listener starts iff UDP is on and the TCP listener iff TCP is on, with the resolved port and strict flag. Every advertisement comes before every listener. |
| Startup.Launch | qotd.go:44-84 | Startup fails at once unless exactly one quote source is given. Otherwise it loads the source first and never again. Everything between the load and the last effect is an advertisement or a listener, and there is one effect per enabled step. It ends by staying alive iff resolution succeeds, and by failing on no transport iff resolution fails, with no exit before that. It advertises iff mDNS is not disabled, and only the `AdvertiseQotdService` record for the resolved configuration. With one source, the UDP listener starts iff the resolved configuration has UDP on, and likewise for TCP, with the resolved port and strict flag. Every advertisement comes before every listener. |
| Startup.StrictLaunch | qotd.go:57-74 | In strict mode, startup starts both the UDP and the TCP listener on port 17, and the server stays up. |
| Startup.AdvertisesBeforeFailing | qotd.go:63-83 | With both transports disabled, startup loads the source, advertises, and only then fails. |
| Startup.DefaultLaunch | qotd.go:36-83 | With the flag defaults (port `"3333"`, every boolean flag off), startup loads the source, advertises, starts UDP and then TCP on port 3333 in lax mode, and stays up. |

## Left out

- Sockets: TCP accept and UDP receive loops, writes and connection close (`listenForTcp`, `listenForUdp`, `serveRandomQuote`, `serveUDPRandomQuote`). These are I/O and goroutine concurrency. Both handlers send the bytes that `RandomQuoteFormattedForDelivery` returns, and that is what is modelled.
- Randomness: `rand.Seed` and `rand.Intn` are replaced by the supplied index `draw`. Uniform selection is a statistical property and is not modelled.
- Delivery.RandomQuoteFormattedForDelivery: does not state that the id is uniformly distributed, because the random source is a parameter.
- Reading the quote source: `ioutil.ReadFile`, `http.Get`, `ioutil.ReadAll` (whose error is ignored in the code), and the `url.Parse` scheme test in `loadQuotes`. These are foreign library calls. The model starts from the bytes they return, and `Launch` records the load as a `LoadQuotes` effect.
- Strings.Split: requires a non-empty separator. Go splits an empty separator into UTF-8 sequences, but the code only ever splits on the 3-byte quote delimiter.
- Startup.Launch: assumes loading succeeds. A failed file read or HTTP GET ends startup with `log.Fatal` inside `loadQuotes`, before any advertisement (qotd.go:219, qotd.go:230). Those are foreign-call failures, so the `LoadQuotes` effect has no failure outcome.
- Command-line parsing with `urfave/cli`. `Flags` is its parsed result. The port flag's default `"3333"` is the constant `Startup.DefaultPort`, used by `Startup.DefaultLaunch`.
- The mDNS server itself (`mdns.NewServer`), the hostname lookup (an input here; its error is ignored in the code), `println(host)` and the deferred `Shutdown`. These are external. Only the record's contents are modelled.
- UUID generation, logrus logging, process exits, `log.Fatal` and the keep-alive sleep loop. These are process control, not logic. The keep-alive loop is the `KeepAlive` effect and fatal exits are `Fatal` effects.
- Port strings are not validated. An unusable port makes the listener fail at bind time, which is socket I/O.
