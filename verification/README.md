# nbsdk: a verified model

nbsdk is a C++ SDK. This project models the parts of it that hold algorithms and proves what they
promise:

- `Text`, `PathSegments`, `QueryMap`, `UrlModel`, `UrlScanning`, `UrlTheorems`, `UrlParsed`,
  `UrlSlashHost`, `UrlCanonical`, `UrlFixpoints`, `UrlReadings`, `UrlAccessors`, `HttpUrls`: `HttpUrl`
  and its builder.
  `Parse` trims a text and cuts it into scheme, host, port, a path worked as a stack and a map of
  query values; `ToString` prints the canonical URL. `UrlModel` says what both compute; the class
  `HttpUrls.Builder` computes it with loops and with wrapping `size_t` positions and is proved to agree.
- `FifoBuffers`: the ring of bytes, proved to be a bounded first-in-first-out queue under writes,
  reads and resizes.
- `SequenceNumbers`: wrap-around comparison and the sequence number unwrapper.
- `AudioFrames`: interleaved frames that are appended, mixed and subtracted.
- `SessionProtocol`, `Websocket`: the websocket session and its messenger as a step system, in which
  every API call and every handler run by the I/O context is one step and how an operation ends is open.
- `GrowableBuffers`: the buffer that grows by half, with the cost of its copying.
- `GccPhat`: picking the lag out of a circular cross-correlation.

Methods are proved equal to functions on values; the theorems are about those functions and about
runs of them. `dafny verify dfyconfig.toml` checks everything.

Places where the proofs show the code to do something a caller may not expect:

- A URL without a `/` after its authority gets the whole authority, port included, as a path
  segment (`EmptyPathFails`, `AuthorityBecomesPath`), because `npos + 1` is 0.
- With a `:` in the path and none in the authority, as in `http://h/a:b`, the host runs on to the `:`
  and the port is read behind it. Unless a `?` in the fragment is stray or a blank is printed last,
  every round of printing and parsing then adds the same segments once more (`HostEndsAtSlash`,
  `ColonInPathGrows`, `ColonInPathExample`, `RoundsGrow`).
- A `?` in a fragment is taken for the start of the query when no query is printed
  (`StrayRoundTrip`, `EncodedPathExactly`, `EncodedQueryExactly`).
- A printed text can stay as it is under parsing and printing although its parts do not, when a `#` in
  the query is read as the start of the fragment (`TextAloneStays`); such a text is the printed form of
  other parts as well, that do (`FixpointsExactly`).
- `Parse` throws, where it returns false on other bad texts, exactly on texts of more than seven
  characters of which trimming leaves only `http` or `https` with at most a `:` and one more character
  behind it: `http` between blanks, or `http:/` followed by two (`ThrowsExactly`).
- A `?` or `#` among the three characters behind the scheme ends nothing, because the count of substr
  wraps around (`DelimiterInSeparator`); a cleared builder prints `://:-1` (`PrintedCleared`).
- After one failed write a session never writes again, even after it has reconnected
  (`FailedWriteStallsForever`).
- `Close` does not stop a recovery wait that is pending: unless the session is disconnected and idle
  then, the session may connect again (`ReconnectsAfterCloseExactly`, `CloseCanReconnect`), which it
  does if it is in error when the wait ends (`TimerReconnectsExactly`).
- `EnsureCapacity` has no headroom, so reserving step by step copies quadratically: no factor below
  2^31 - 1 bounds the copying, and from there on factors do only because sizes fit 32 bits
  (`ReservingIsNotPaidFor`).
- Above a capacity of 0xAAAAAAAA the headroom sum wraps around to less than the capacity, and every
  single element appended to a full block copies it (`HeadroomThreshold`).
- Newer is not transitive: it is as long as the way round stays within half the range
  (`NewerIsTransitiveExactly`, `NewerHasCycles`).
- Mixing three frames may depend on their grouping, exactly where a sum that clamps is driven back by
  the third sample (`AddIsAssociativeExactly`, `MixMayNotAssociate`).
- With an odd number of samples the picked lag is one less than the true one (`PeakIsFound`,
  `EvenCountsAreExact`).
- The path drops empty segments, where section 5.2.4 of RFC 3986 keeps them. The two agree only where
  there are none inside or where `..` segments behind the last one climb to the root
  (`StackIsRemoveDotSegmentsExactly`, `EmptySegmentsDiffer`).

## Model

| member | source | states |
|---|---|---|
| `UrlTheorems.RoundTrip` | net/http/http_url.cc:193-381 | For every builder state whose components hold no delimiter of their place, with a segment, no stray `?` in the fragment and no blank printed last, parsing the printed URL succeeds and rebuilds scheme, host, path, query and fragment exactly, and the port with its default made explicit, whatever state the parser was in |
| `UrlTheorems.RoundTripExactly` | net/http/http_url.cc:193-381 | For every state whose components hold no delimiter of their place, the round trip holds if and only if those three conditions do, or dots in a fragment with a stray `?` climb back to the path and the text behind the `?` names no parameter |
| `UrlTheorems.EmptyPathFails` | net/http/http_url.cc:275-280 | A URL printed without a path comes back with host and port as its only segment; with a stray `?` in its fragment, with the path that `ParseStray` states |
| `UrlCanonical.AuthorityBecomesPath` | net/http/http_url.cc:246-280 | Text of a scheme, three characters that are not `?` or `#`, and an authority without `/`, with any query or fragment behind it, is accepted with the authority, and what of a fragment precedes a `?`, as its only segment; with none if that is `.` or `..` |
| `UrlTheorems.ParseStray` | net/http/http_url.cc:231-319 | What is read back, field by field, from a URL printed without query whose fragment holds a `?` |
| `UrlTheorems.StrayPathExactly` | net/http/http_url.cc:231-280 | The path read back in front of a stray `?` is the old one if and only if the fragment, behind its first slash, climbs some levels and goes down the very names it climbed past (for an empty path: goes down none) |
| `QueryMap.ReadsNothing` | net/http/http_url.cc:294-313 | A query text gives no parameter if and only if each of its pieces is empty or starts with `=` |
| `UrlTheorems.StrayRoundTrip` | net/http/http_url.cc:231-313 | A URL printed with a stray `?` survives if and only if its fragment climbs back in that way, the text behind the `?` names nothing, and no blank ends it |
| `UrlTheorems.DotsCanRepair` | net/http/http_url.cc:231-313 | Such a URL exists: path `/a` with fragment `/../a?` |
| `UrlTheorems.RepairNeedsSlash` | net/http/http_url.cc:231-239 | Which takes a slash in the fragment |
| `UrlParsed.ThrowsExactly` | net/http/http_url.cc:193-239 | `Parse` throws if and only if the text has more than seven characters and trimming leaves a scheme word with at most a `:` and one more character; then only the scheme is set |
| `UrlParsed.BareSchemeThrows` | net/http/http_url.cc:229-239 | In particular on a scheme word followed by enough spaces, and with which scheme set |
| `UrlTheorems.TrimmedFragmentFails` | net/http/http_url.cc:201-211 | A fragment that ends in a blank comes back different, with or without a stray `?` |
| `UrlTheorems.TrimmedQueryFails` | net/http/http_url.cc:201-211 | A query whose last printed value ends in a blank comes back different |
| `UrlTheorems.TrimmedPathFails` | net/http/http_url.cc:201-211 | A path whose last segment ends in a blank comes back different |
| `UrlTheorems.ParseFront` | net/http/http_url.cc:229-273 | Scheme, host and port are found again in front of any path text and tail |
| `UrlCanonical.CanonicalExactly` | net/http/http_url.cc:193-381 | For every text that `Parse` accepts, printing and parsing gives the parts back, and then the same text, if and only if they hold no `?` or `#` in front of the fragment and, with no slash in the host, survive as in `RoundTripExactly`, with one, have the chance of `SlashExactly`: if and only if they last |
| `UrlFixpoints.FixpointsExactly` | net/http/http_url.cc:193-381 | For every text at all: parsing accepts it and printing what was read gives it again if and only if it is the printed form of parts that last, whether it was printed from them or not |
| `UrlFixpoints.LegibleFixpointsExactly` | net/http/http_url.cc:193-381 | For parts that hold no delimiter of a later part, but for a slash in the host, the printed text stays if and only if the parts last |
| `UrlFixpoints.PrintIsInjective` | net/http/http_url.cc:324-381 | Two such states with the same printed form are the same, up to a default port made explicit |
| `UrlFixpoints.AuthorityComesBack` | net/http/http_url.cc:229-273 | From the printed form of such parts scheme, host and port are read back, whatever follows and however it is trimmed |
| `UrlFixpoints.TextAloneStays` | net/http/http_url.cc:193-381 | Texts such as `http://h:8#x/p?n=v#w` are read as parts that do not come back, while their printed form stays as it is |
| `UrlCanonical.OrdinarilyCanonical` | net/http/http_url.cc:193-381 | In particular, where no `?` is stray and no blank is printed last, if and only if the parts are clean and a segment survives |
| `UrlParsed.AcceptedIsParsed` | net/http/http_url.cc:193-322 | What holds of the fields after every successful `Parse`: a known scheme, no `:` in the host, a 32-bit port, a normal path, and a valid query whose names and values hold no separator |
| `UrlParsed.QuestionMarkFails` | net/http/http_url.cc:231-280 | A `?` in host or path is never read back |
| `UrlParsed.HashFails` | net/http/http_url.cc:231-319 | Nor are parts with a `#` in host, path or query: the fragment grows by more than trimming can take off, or the `#` is lost |
| `UrlSlashHost.SlashGrows` | net/http/http_url.cc:246-280 | With a slash in the host, its end and the port are read as segments in front of the path |
| `UrlSlashHost.RoundsGrow` | net/http/http_url.cc:193-381 | With a slash in the host, no stray `?` and no blank printed last, k rounds of printing and parsing put k copies of these segments in front of the path and leave all else, the port made explicit |
| `UrlSlashHost.TrimsBackExactly` | net/http/http_url.cc:201-280 | What trimming leaves of the last segment brings the path back if and only if two segments were added, the path goes to and fro between them, and `..` is left |
| `UrlSlashHost.SlashStrayExactly` | net/http/http_url.cc:231-280 | The path read back in front of a stray `?` is the old one if and only if the fragment, behind its first slash, climbs to what the longer path and the old one have in common from the root on, and goes down the rest of the old one |
| `UrlSlashHost.SlashExactly` | net/http/http_url.cc:193-381 | With a slash in the host the parts come back if and only if there is no query and one of these two holds: the first with a blank printed last and no fragment, the second with a stray `?` that is followed by no name and no blank at the end |
| `UrlCanonical.CanonicalFixpoint` | net/http/http_url.cc:193-381 | For every text of scheme, three characters, authority, slash, path, and a query or a fragment without `?`, blanks anywhere, the printed form is canonical by the chances of `SlashExactly` if a `:` stands in the path alone, and otherwise if and only if the parts survive a round trip; without a `?` in the fragment that is: a segment survives and no blank is printed last |
| `UrlCanonical.CanonicalWithoutSlash` | net/http/http_url.cc:193-381 | For every such text without that slash and path it is if and only if the parts survive a round trip, and a segment does unless the authority is `.` or `..` |
| `UrlCanonical.ShapeParse` | net/http/http_url.cc:229-319 | Every field read off such texts, whose parts are clean if and only if the host holds no slash |
| `UrlCanonical.NoBlankText` | net/http/http_url.cc:201-211 | Text without blanks inside is printed without one at its end |
| `UrlCanonical.HostEndsAtSlash` | net/http/http_url.cc:247-260 | The host is part of the authority if and only if a `:` in the path comes with one in the authority |
| `UrlCanonical.ColonInPathGrows` | net/http/http_url.cc:247-273 | Where it is not, the host runs on to the `:` in the path, and unless a blank is printed last or a `?` is stray, every round of printing and parsing puts the same segments in front of the path |
| `UrlCanonical.ColonInPathExample` | net/http/http_url.cc:247-273 | `http://h/a:b` is read with host `h/a` and is not canonical |
| `UrlCanonical.TrimmingRepairs` | net/http/http_url.cc:201-280 | The chance exists: `http://h/.. /b:0/..` has a slash in its host and a canonical printed form, by the blank that is trimmed off it |
| `UrlCanonical.SameQuerySameUrl` | net/http/http_url.cc:294-313 | Two texts that differ only in the blanks around them and in queries that carry the same pairs, in any order and with any repetition, parse to the same state, with or without a fragment |
| `UrlAccessors.EncodedPathExactly` | net/http/http_url.cc:444-454 | `EncodedPath` is the concatenation of `/` and segment if and only if there is a segment and no stray `?` |
| `UrlAccessors.EncodedQueryExactly` | net/http/http_url.cc:456-469 | `EncodedQuery` is the printed query if and only if no stray `?` is followed by text |
| `UrlAccessors.AccessorsReassemble` | net/http/http_url.cc:412-481 | With a segment and no stray `?`, scheme, host, port, `EncodedPath`, `EncodedQuery` and the fragment reassemble to the URL |
| `UrlAccessors.EncodedPathWithoutSegment` | net/http/http_url.cc:444-454 | Without a segment `EncodedPath` throws, or gives the text from a `/` of the query or fragment on |
| `UrlAccessors.EncodedPathWithStray` | net/http/http_url.cc:444-454 | With a stray `?` it runs on through the fragment to that |
| `UrlAccessors.EncodedQueryWithStray` | net/http/http_url.cc:456-469 | And `EncodedQuery` gives what follows it |
| `UrlAccessors.EncodedPathThrows` | net/http/http_url.cc:444-454 | On any text `EncodedPath` throws if and only if there is no `/` behind scheme and `://`, and otherwise gives a text |
| `UrlReadings.SchemeWords` | net/http/http_url.cc:213-227 | The words taken for `http` and `https`, letter by letter, in either case |
| `UrlReadings.SchemeCaseIsFree` | net/http/http_url.cc:213-227 | Texts that differ only in blanks around them and in the case of their first word parse alike, whatever follows |
| `UrlReadings.ShortTextRejected` | net/http/http_url.cc:193-197 | Up to seven characters are rejected and leave every field as it was |
| `UrlReadings.OtherSchemeRejected` | net/http/http_url.cc:199-227 | Any other first word is rejected and leaves the fields cleared |
| `UrlReadings.NoHostRejected` | net/http/http_url.cc:229-244 | So is a scheme with nothing between its three characters and a query or fragment, with the scheme set |
| `UrlReadings.DelimiterInSeparator` | net/http/http_url.cc:231-239 | With a `?` among these three characters, or a `#` and no `?` at all, host and path are all of the rest |
| `UrlReadings.PortByScheme` | net/http/http_url.cc:251-272 | A text without a port, or with nothing behind its `:`, gets port 80 for a word of four letters and 443 for one of five |
| `UrlReadings.DefaultPorts` | net/http/http_url.cc:384-390 | Those are the ports of `http` and `https` |
| `UrlReadings.EmptyPort` | net/http/http_url.cc:259-272 | A `:` with nothing between it and the path, or the end, leaves the port empty |
| `UrlReadings.ExplicitDefaultPort` | net/http/http_url.cc:251-272 | Saying that port in front of a path is read as leaving it out |
| `UrlReadings.PrintedPort` | net/http/http_url.cc:338-341 | Port -1 is printed as `:80` or `:443`, any other as it is |
| `UrlReadings.PrintedBrackets` | net/http/http_url.cc:329-337 | A host with a `:` is printed in brackets |
| `UrlReadings.PrintedCleared` | net/http/http_url.cc:324-381 | A new or cleared builder prints `://:-1` |
| `UrlReadings.BareName` | net/http/http_url.cc:300-310 | A piece without `=` is a name with an empty value |
| `UrlReadings.SplitAtFirstEquals` | net/http/http_url.cc:300-310 | Name and value are split at the first `=` |
| `UrlReadings.NameWithoutValues` | net/http/http_url.cc:354-356 | A name without values is printed bare and not counted for the separators |
| `PathSegments.AddSegmentsFromEmpty` | net/http/http_url.cc:62-101 | A list built from nothing has no empty, `.` or `..` segment, no slash in a segment, and no character that was not in the text |
| `PathSegments.PushAllKeepsNormal` | net/http/http_url.cc:82-101 | Pushing keeps the list free of empty, `.` and `..` segments and invents none |
| `PathSegments.AddSegmentsConcat` | net/http/http_url.cc:62-75 | Adding `a/b` is adding a and then b |
| `PathSegments.AddSegmentsIdempotent` | net/http/http_url.cc:62-101 | Re-adding a built path to an empty list gives the same list |
| `PathSegments.AddSegmentsIsWalk` | net/http/http_url.cc:62-101 | What a text does to the list is the same for every list: it drops some number of last segments, at most all, and appends some names |
| `PathSegments.RemoveDotSegmentsIsKeepingStack` | net/http/http_url.cc:77-101 | On every text remove_dot_segments of section 5.2.4 of RFC 3986 is such a stack, except that it keeps empty segments and a last slash |
| `PathSegments.StackIsRemoveDotSegmentsExactly` | net/http/http_url.cc:62-101 | On every text the stack computes remove_dot_segments, up to the last slash, if and only if no empty segment lies inside or, behind the last one, the text climbs to the root |
| `PathSegments.StackIsRemoveDotSegments` | net/http/http_url.cc:77-101 | In particular on every text without empty segments |
| `PathSegments.EmptySegmentsDiffer` | net/http/http_url.cc:70-73 | It does not on any text that ends in a name directly behind an empty segment |
| `QueryMap.AddAllHas` | net/http/http_url.cc:294-313 | Reading a query gives exactly the pairs its pieces carry under a non-empty name, and a valid map |
| `QueryMap.ReadQueryIsSetLike` | net/http/http_url.cc:294-313 | Order, repetition and empty pieces do not matter to what is read |
| `QueryMap.ReadQueryOfSameTokens` | net/http/http_url.cc:294-313 | Texts with the same non-empty pieces read the same |
| `QueryMap.AddHas` | net/http/http_url.cc:137-151 | Adding adds exactly one pair and keeps names and value sets non-empty |
| `QueryMap.RemoveHas` | net/http/http_url.cc:153-175 | Removing a pair, or a name, takes away exactly that and keeps value sets non-empty |
| `QueryMap.EmptyNameIsIgnored` | net/http/http_url.cc:137-175 | An empty name adds and removes nothing, in any map |
| `QueryMap.RemoveUndoesAdd` | net/http/http_url.cc:137-166 | Removing a pair undoes adding it when it was not there before |
| `QueryMap.PrintQueryIsJoin` | net/http/http_url.cc:348-373 | In a valid map the counted separators make an exact `&` join of the pairs |
| `QueryMap.ReadOfPrint` | net/http/http_url.cc:294-373 | Reading a printed clean map gives the map back |
| `Text.TokensOfJoin` | net/http/http_url.cc:67-73 | Splitting at a separator undoes joining |
| `Text.AtoiOfDecimal` | net/http/http_url.cc:267-341 | `atoi` undoes the printing of every 32-bit number, whatever follows its digits |
| `Text.NoLeadingZero` | net/http/http_url.cc:338-341 | A number is printed without leading zeros |
| `Text.AtoiExactly` | net/http/http_url.cc:267-270 | What `atoi` reads of blanks, a sign, leading zeros and a number of any size with anything behind it |
| `Text.AtoiOfNoNumber` | net/http/http_url.cc:267-270 | Where there is no digit behind blanks and a sign it reads 0 |
| `Text.AscendingIsSorted` | net/http/http_url.cc:351-358 | Names and values are visited in strictly ascending order: of two, the first is a prefix of the second or has the smaller character where they first differ |
| `Text.BeforeExactly` | net/http/http_url.cc:351-358 | That is the order on strings in which maps and sets are kept |
| `Text.TrimmedOnTheLeft` | net/http/http_url.cc:201-205 | One run each of spaces, tabs, newlines, form feeds and carriage returns goes from the left, in this order |
| `Text.TrimmedOnTheRight` | net/http/http_url.cc:207-211 | The same from the right |
| `Text.UntrimmedExactly` | net/http/http_url.cc:201-211 | A text stays as it is if and only if it neither starts nor ends with one of these five |
| `HttpUrls.Builder.constructor` | net/include/http_url.h:33-33 | A new builder has port -1 and everything else empty |
| `HttpUrls.Builder.Clear` | net/include/http_url.h:95-102 | Back to the state of a new builder |
| `HttpUrls.Builder.SetScheme` | net/http/http_url.cc:16-30 | Anything but https sets http |
| `HttpUrls.Builder.SetPort` | net/http/http_url.cc:43-51 | Numbers outside 1 to 65535 set -1 |
| `HttpUrls.Builder.Pop` | net/http/http_url.cc:82-87 | Drops the last segment, if any |
| `HttpUrls.Builder.Push` | net/http/http_url.cc:89-101 | One step of the stack; the list stays normal |
| `HttpUrls.Builder.AddEncodedPathSegment` | net/http/http_url.cc:53-60 | Pushes one segment unsplit |
| `HttpUrls.Builder.AddEncodedPathSegments` | net/http/http_url.cc:62-75 | The loop over the pieces computes `AddSegments` |
| `HttpUrls.Builder.SetEncodedPathSegment` | net/http/http_url.cc:103-122 | Replaces exactly the indexed segment, or nothing for dot segments and bad indices |
| `HttpUrls.Builder.RemovePathSegment` | net/http/http_url.cc:124-135 | Removes exactly the indexed segment, or nothing |
| `HttpUrls.Builder.AddEncodedQueryParameter` | net/http/http_url.cc:137-151 | Adds the pair; the map stays valid |
| `HttpUrls.Builder.RemoveEncodedQueryParameter` | net/http/http_url.cc:153-166 | Removes the pair, and the name with its last value |
| `HttpUrls.Builder.RemoveEncodedQueryName` | net/http/http_url.cc:168-175 | Removes the name |
| `HttpUrls.Builder.AddEncodedFragment` | net/http/http_url.cc:177-184 | Sets the fragment unless it is empty |
| `HttpUrls.Builder.CutHostPath` | net/http/http_url.cc:231-239 | substr with a wrapping count, and where it throws, in terms of plain positions |
| `HttpUrls.Builder.CutPort` | net/http/http_url.cc:259-266 | The port text, also when a `:` comes after the first `/` |
| `HttpUrls.Builder.SplitAuthority` | net/http/http_url.cc:246-273 | Host and port as `UrlModel` reads them |
| `HttpUrls.Builder.AddPathOf` | net/http/http_url.cc:275-280 | With npos + 1 equal to 0 the path is the whole text when there is no `/` |
| `HttpUrls.Builder.CutQuery` | net/http/http_url.cc:282-292 | The query text, also when `#` comes before `?` |
| `HttpUrls.Builder.AddQueryText` | net/http/http_url.cc:294-312 | The loop over the pieces adds the pairs they carry |
| `HttpUrls.Builder.Parse` | net/http/http_url.cc:193-322 | Outcome (true, false or out_of_range) and all fields afterwards are those of `UrlModel.Parse`, on success and on each failure; the invariants hold |
| `HttpUrls.Builder.PrintValuesOf` | net/http/http_url.cc:357-366 | The inner loop of `ToString` prints the values in ascending order with `&` between them |
| `HttpUrls.Builder.PrintParameters` | net/http/http_url.cc:348-373 | The outer loop of `ToString` prints the whole map in ascending order of names |
| `HttpUrls.Builder.ToString` | net/http/http_url.cc:324-381 | The text is the printed form of the fields |
| `HttpUrls.HttpUrl.constructor` | net/http/http_url.cc:408-421 | A URL copies the builder's fields and keeps its printed form |
| `HttpUrls.HttpUrl.FromText` | net/http/http_url.cc:392-396 | Parses into a new builder, ignoring a rejection; out_of_range gives no URL |
| `HttpUrls.HttpUrl.EncodedPath` | net/http/http_url.cc:444-454 | Agrees, size_t arithmetic and out_of_range included, with `UrlModel.EncodedPath` |
| `HttpUrls.HttpUrl.EncodedQuery` | net/http/http_url.cc:456-469 | Agrees with `UrlModel.EncodedQuery` |
| `FifoBuffers.FirstInFirstOut` | memery/fifo_buffer.cc:24-103 | Over any run of writes, reads and resizes, what was held and accepted equals what was delivered and is still held, in order, and the bound is kept |
| `FifoBuffers.StepIsGreedy` | memery/fifo_buffer.cc:24-103 | A write leaves bytes behind only in a full queue, a read falls short only by emptying it, a resize takes effect if and only if the data fits |
| `FifoBuffers.WritesThatFit` | memery/fifo_buffer.cc:54-62 | Writes that fit are accepted whole and queue up one behind the other |
| `FifoBuffers.SubWindow` | memery/fifo_buffer.cc:69-75 | A part of the ring's window is the window from the wrapped position |
| `FifoBuffers.WrittenWindow` | memery/fifo_buffer.cc:90-97 | A two-piece write behind the data extends the window by the bytes written |
| `FifoBuffers.FifoBuffer.constructor` | memery/fifo_buffer.cc:11-17 | An empty queue of the given capacity, 0 included |
| `FifoBuffers.FifoBuffer.GetDataLen` | memery/fifo_buffer.cc:19-22 | The number of bytes held |
| `FifoBuffers.FifoBuffer.SetCapacity` | memery/fifo_buffer.cc:24-41 | Succeeds if and only if the data fits; data and order are kept |
| `FifoBuffers.FifoBuffer.Read` | memery/fifo_buffer.cc:43-52 | Removes exactly the oldest min(bytes, length) bytes and copies them out; the rest of the target is untouched |
| `FifoBuffers.FifoBuffer.Write` | memery/fifo_buffer.cc:54-62 | Appends exactly the leading min(bytes, free) bytes |
| `FifoBuffers.FifoBuffer.ReadOffsetLocked` | memery/fifo_buffer.cc:64-81 | Copies the bytes at an offset in at most two pieces, all in bounds, with no division by zero |
| `FifoBuffers.FifoBuffer.WriteOffsetLocked` | memery/fifo_buffer.cc:83-103 | Puts bytes behind the data in at most two pieces and leaves the data alone |
| `SequenceNumbers.NewerIsTotal` | third/webrtc/x86_64/include/webrtc_audio_processing/webrtc/modules/interface/module_common_types.h:739-761 | Of two different numbers exactly one is newer, at either width, the half-range tie included |
| `SequenceNumbers.SequenceNumberIsNewer` | third/webrtc/x86_64/include/webrtc_audio_processing/webrtc/modules/interface/module_common_types.h:739-749 | The 16-bit comparison, with its cast, is the general one |
| `SequenceNumbers.TimestampIsNewer` | third/webrtc/x86_64/include/webrtc_audio_processing/webrtc/modules/interface/module_common_types.h:751-761 | The 32-bit comparison, with its cast, is the general one |
| `SequenceNumbers.LatestIsCommutative` | third/webrtc/x86_64/include/webrtc_audio_processing/webrtc/modules/interface/module_common_types.h:763-772 | The latest of two does not depend on their order |
| `SequenceNumbers.NewerIsTransitiveExactly` | third/webrtc/x86_64/include/webrtc_audio_processing/webrtc/modules/interface/module_common_types.h:739-761 | What is newer than a newer number is newer itself if and only if the way round, over both, is less than half the range, or just half of it and the number is greater |
| `SequenceNumbers.NewerIsTransitive` | third/webrtc/x86_64/include/webrtc_audio_processing/webrtc/modules/interface/module_common_types.h:739-761 | That at both widths |
| `SequenceNumbers.NewerHasCycles` | third/webrtc/x86_64/include/webrtc_audio_processing/webrtc/modules/interface/module_common_types.h:739-749 | Three 16-bit numbers that are newer than each other in a circle |
| `SequenceNumbers.NewerOfResidues` | third/webrtc/x86_64/include/webrtc_audio_processing/webrtc/modules/interface/module_common_types.h:739-761 | For numbers less than half the range apart, comparing residues is comparing the numbers |
| `SequenceNumbers.LatestOfMany16` | third/webrtc/x86_64/include/webrtc_audio_processing/webrtc/modules/interface/module_common_types.h:763-768 | Folding over numbers that span less than half the range gives the residue of their maximum, in any order |
| `SequenceNumbers.LatestOfMany32` | third/webrtc/x86_64/include/webrtc_audio_processing/webrtc/modules/interface/module_common_types.h:770-772 | The same for timestamps |
| `SequenceNumbers.StreamFacts` | third/webrtc/x86_64/include/webrtc_audio_processing/webrtc/modules/interface/module_common_types.h:777-812 | On any stream the first result is the first number, and every other is non-negative and congruent to its input; newer goes up from the result before, older goes down, by at most 2^15, except where going below 0 is refused, and what happens then |
| `SequenceNumbers.UnwrapStepFacts` | third/webrtc/x86_64/include/webrtc_audio_processing/webrtc/modules/interface/module_common_types.h:782-798 | The same of one step from any non-negative result |
| `SequenceNumbers.StepIsRecoveredExactly` | third/webrtc/x86_64/include/webrtc_audio_processing/webrtc/modules/interface/module_common_types.h:782-798 | Which steps of a true count are recovered, exactly, ties and refusals included |
| `SequenceNumbers.StreamIsRecoveredExactly` | third/webrtc/x86_64/include/webrtc_audio_processing/webrtc/modules/interface/module_common_types.h:777-812 | A whole stream is recovered if and only if it starts below 2^16 and each step is one of those |
| `SequenceNumbers.StreamIsRecovered` | third/webrtc/x86_64/include/webrtc_audio_processing/webrtc/modules/interface/module_common_types.h:777-812 | Any count that starts below 2^16 with steps smaller than 2^15 comes back, over any number of wraps |
| `SequenceNumbers.SequenceNumberUnwrapper.constructor` | third/webrtc/x86_64/include/webrtc_audio_processing/webrtc/modules/interface/module_common_types.h:779-780 | There is no last number yet |
| `SequenceNumbers.SequenceNumberUnwrapper.UpdateLast` | third/webrtc/x86_64/include/webrtc_audio_processing/webrtc/modules/interface/module_common_types.h:800-801 | Sets the last number |
| `SequenceNumbers.SequenceNumberUnwrapper.Unwrap` | third/webrtc/x86_64/include/webrtc_audio_processing/webrtc/modules/interface/module_common_types.h:803-808 | Returns and remembers the number unwrapped from the last one |
| `AudioFrames.AppendConcatenatesChannels` | third/webrtc/x86_64/include/webrtc_audio_processing/webrtc/modules/interface/module_common_types.h:638-660 | De-interleaved, appending is concatenation in each channel |
| `AudioFrames.ClampIsNearest` | third/webrtc/x86_64/include/webrtc_audio_processing/webrtc/modules/interface/module_common_types.h:662-671 | The clamped value is the 16-bit sample nearest to the true one |
| `AudioFrames.AddIsCommutative` | third/webrtc/x86_64/include/webrtc_audio_processing/webrtc/modules/interface/module_common_types.h:674-713 | Mixing frames of one shape commutes in every field, clamping included |
| `AudioFrames.SubtractRestoresExactly` | third/webrtc/x86_64/include/webrtc_audio_processing/webrtc/modules/interface/module_common_types.h:674-737 | Subtracting restores a sample if and only if the sum needed no clamping |
| `AudioFrames.SamplesAreCut` | third/webrtc/x86_64/include/webrtc_audio_processing/webrtc/modules/interface/module_common_types.h:662-737 | Mixing and subtracting give the sum or difference of two samples, or the bound of 16 bits that it runs past, and keep the shape |
| `AudioFrames.AppendedFields` | third/webrtc/x86_64/include/webrtc_audio_processing/webrtc/modules/interface/module_common_types.h:638-660 | Every field after appending, also of frames that do not fit together |
| `AudioFrames.AddedFields` | third/webrtc/x86_64/include/webrtc_audio_processing/webrtc/modules/interface/module_common_types.h:674-713 | Every field but the samples after mixing, copying into an empty frame and frames that do not fit together included |
| `AudioFrames.SubtractedFields` | third/webrtc/x86_64/include/webrtc_audio_processing/webrtc/modules/interface/module_common_types.h:715-737 | Activity passive only if both were and unknown otherwise, speech type undefined, energy reset; frames of another shape change nothing |
| `AudioFrames.FoldSubtractedIsOrderFree` | third/webrtc/x86_64/include/webrtc_audio_processing/webrtc/modules/interface/module_common_types.h:715-737 | After any number of subtractions the activity is passive if all frames were and unknown otherwise, whatever their order |
| `AudioFrames.AddIsAssociativeExactly` | third/webrtc/x86_64/include/webrtc_audio_processing/webrtc/modules/interface/module_common_types.h:674-713 | Mixing three frames of one shape does not depend on their grouping, in any field, if and only if no sum of neighbouring samples that clamps is driven back by the third |
| `AudioFrames.MixIsAssociativeExactly` | third/webrtc/x86_64/include/webrtc_audio_processing/webrtc/modules/interface/module_common_types.h:662-671 | The same of three samples |
| `AudioFrames.MixIsAssociativeWithoutClamping` | third/webrtc/x86_64/include/webrtc_audio_processing/webrtc/modules/interface/module_common_types.h:662-671 | In particular where neighbouring sums fit |
| `AudioFrames.MixMayNotAssociate` | third/webrtc/x86_64/include/webrtc_audio_processing/webrtc/modules/interface/module_common_types.h:662-671 | Three samples that mix differently, and three that clamp throughout and do not |
| `AudioFrames.FoldVadIsOrderFree` | third/webrtc/x86_64/include/webrtc_audio_processing/webrtc/modules/interface/module_common_types.h:674-713 | Mixing many frames of one shape gives a voice activity that depends only on which occur among them |
| `AudioFrames.FoldSpeechIsOrderFree` | third/webrtc/x86_64/include/webrtc_audio_processing/webrtc/modules/interface/module_common_types.h:674-713 | Mixing many frames of one shape gives their common speech type, or undefined |
| `AudioFrames.AudioFrame.constructor` | third/webrtc/x86_64/include/webrtc_audio_processing/webrtc/modules/interface/module_common_types.h:554-572 | An empty frame in its default state |
| `AudioFrames.AudioFrame.Append` | third/webrtc/x86_64/include/webrtc_audio_processing/webrtc/modules/interface/module_common_types.h:638-660 | Samples, length and merged state afterwards, also when a frame is appended to itself |
| `AudioFrames.AudioFrame.Add` | third/webrtc/x86_64/include/webrtc_audio_processing/webrtc/modules/interface/module_common_types.h:674-713 | Mixes, copies into an empty frame, or leaves all as it was, also with itself |
| `AudioFrames.AudioFrame.Subtract` | third/webrtc/x86_64/include/webrtc_audio_processing/webrtc/modules/interface/module_common_types.h:715-737 | Subtracts with clamping, or leaves all as it was |
| `SessionProtocol.AcceptedAreOffered` | net/messenger/websocket_session.cc:43-53 | Over any run the messages accepted are those sent while the session was connecting or connected, all of them and no others |
| `SessionProtocol.NothingLostOrReordered` | net/messenger/websocket_session.cc:43-53 | In every state of every run, errors and reconnects included, these messages are those written, then queued, then posted; at most one write is in flight and it carries the front of the queue |
| `SessionProtocol.PipelineHolds` | net/messenger/websocket_session.cc:135-205 | The pipeline invariant, with: the sender stands still with a queue exactly when a write has failed |
| `SessionProtocol.FailedWriteStallsForever` | net/messenger/websocket_session.cc:135-145 | After a failed write nothing is written again in any run, and the failed message stays in front |
| `SessionProtocol.DrainStep` | net/messenger/websocket_session.cc:147-205 | While no write has failed, a backlog means that a draining step can run, and each lowers it by one |
| `SessionProtocol.AcceptedIsWritten` | net/messenger/websocket_session.cc:43-205 | In any run, whatever happens in it, the messages accepted before it have all been written at its end, first and in order, if and only if it has enough successful writes |
| `SessionProtocol.OfferedIsWritten` | net/messenger/websocket_session.cc:43-205 | Of two runs one after the other: what was sent in the first while connecting or connected has been written by the end of the second, first and in order, if and only if both together have as many successful writes |
| `SessionProtocol.DrainingWritesEverything` | net/messenger/websocket_session.cc:43-205 | In any run without a failed write, whatever else happens in it, draining steps never exceed the first backlog and two for each message accepted; they reach it if and only if all accepted messages have been written, in order, and short of it a draining step can run |
| `SessionProtocol.StartIs` | net/messenger/websocket_messenger.cc:11-12 | Before the first step session and messenger are closed, nothing is under way and recovery is on |
| `SessionProtocol.SessionTransitions` | net/messenger/websocket_session.cc:22-190 | The table of the session state: what each event makes of it |
| `SessionProtocol.MessengerTransitions` | net/messenger/websocket_messenger.cc:33-119 | The table of the messenger state and of whether recovery is on |
| `SessionProtocol.ReportsExactly` | net/messenger/websocket_session.cc:55-190 | Which error or success each handler reports |
| `SessionProtocol.OperationsAreAccounted` | net/messenger/websocket_session.cc:22-190 | Over any run resolves, connects, handshakes, reads and closes under way are those started and not ended: resolves by calls of `Connect` that find the session disconnected or in error, the others by the success of the stage before or by `Close`; a received message keeps its read going |
| `SessionProtocol.AgreeHolds` | net/messenger/websocket_messenger.cc:69-129 | After every step the messenger is open if and only if the session is connected, and closed or in error only with a session that is so or connecting |
| `SessionProtocol.RecoveryIsAccounted` | net/messenger/websocket_messenger.cc:88-128 | Over any run every wait is armed by one failure to connect or receive or one close by the other side while recovery was on, and ends once; Connect calls are the ended waits that do not find the messenger closed |
| `SessionProtocol.TimerConnectsAreBounded` | net/messenger/websocket_messenger.cc:88-129 | Timer-driven Connect calls never exceed the connect, receive and disconnect errors reported while recovery was on |
| `SessionProtocol.ClosedConnectsAreBounded` | net/messenger/websocket_messenger.cc:41-49 | After Close with no later Open, they and the connection attempts are at most the waits pending at Close |
| `SessionProtocol.TimerReconnectsExactly` | net/messenger/websocket_messenger.cc:123-127 | An ended wait starts an attempt if and only if the session is in error |
| `SessionProtocol.ReconnectsAfterCloseExactly` | net/messenger/websocket_messenger.cc:41-49 | After `Close` some run without `Open` attempts a connection if and only if a wait is pending and the session is not disconnected and idle |
| `SessionProtocol.CloseCanReconnect` | net/messenger/websocket_messenger.cc:41-49 | Such a run of four steps |
| `Websocket.WebsocketSession.constructor` | net/messenger/websocket_session.cc:13-16 | A disconnected session with nothing pending |
| `Websocket.WebsocketSession.Connect` | net/messenger/websocket_session.cc:22-32 | Starts one resolve from the disconnected or error state, and does nothing in any other |
| `Websocket.WebsocketSession.Disconnect` | net/messenger/websocket_session.cc:35-41 | Starts one close unless disconnected, also in the middle of connecting; the state waits for its handler |
| `Websocket.WebsocketSession.SendData` | net/messenger/websocket_session.cc:43-53 | Posts the message behind those posted before, or drops it when disconnected or in error |
| `Websocket.WebsocketSession.SendDataInner` | net/messenger/websocket_session.cc:196-205 | Moves the oldest posted message to the end of the queue and starts a write only when it is alone there |
| `Websocket.WebsocketSession.OnWrite` | net/messenger/websocket_session.cc:135-155 | Success erases the front of a queue that is never empty and starts the next write; failure keeps the queue and starts none |
| `Websocket.WebsocketSession.OnResolve` | net/messenger/websocket_session.cc:55-68 | Goes on to connect, or reports a connect error in the error state |
| `Websocket.WebsocketSession.OnConnect` | net/messenger/websocket_session.cc:70-89 | Goes on to the handshake, or reports a connect error in the error state |
| `Websocket.WebsocketSession.OnHandshake` | net/messenger/websocket_session.cc:91-109 | Connected with one read started, or a connect error in the error state |
| `Websocket.WebsocketSession.OnClosed` | net/messenger/websocket_session.cc:111-125 | Disconnected, or a close error in the error state |
| `Websocket.WebsocketSession.OnDisconnected` | net/messenger/websocket_session.cc:127-133 | Error state and a disconnect error |
| `Websocket.WebsocketSession.OnRead` | net/messenger/websocket_session.cc:157-190 | Which of the four results ends the reading, reports an error and which, or starts the next read |
| `Websocket.WebsocketSession.DoRead` | net/messenger/websocket_session.cc:207-218 | Starts one read |
| `Websocket.WebsocketMessenger.constructor` | net/messenger/websocket_messenger.cc:11-26 | The start of the step system |
| `Websocket.WebsocketMessenger.Open` | net/messenger/websocket_messenger.cc:33-39 | Recovery is on and the session is told to connect |
| `Websocket.WebsocketMessenger.Close` | net/messenger/websocket_messenger.cc:41-49 | Recovery is off and the session is told to disconnect; pending waits stay pending |
| `Websocket.WebsocketMessenger.SendMessage` | net/messenger/websocket_messenger.cc:51-55 | The message goes to the session; the messenger's own state stays as it was |
| `Websocket.WebsocketMessenger.OnConnectedCallback` | net/messenger/websocket_messenger.cc:69-77 | The messenger is open |
| `Websocket.WebsocketMessenger.OnClosedCallback` | net/messenger/websocket_messenger.cc:79-86 | The messenger is closed |
| `Websocket.WebsocketMessenger.OnErrorCallback` | net/messenger/websocket_messenger.cc:88-129 | The messenger is in error, and a wait is armed exactly for the three recoverable errors while recovery is on |
| `Websocket.WebsocketMessenger.OnTimer` | net/messenger/websocket_messenger.cc:123-127 | The handler of a wait, which ignores its error code |
| `Websocket.WebsocketMessenger.Perform` | net/messenger/websocket_messenger.cc:12-24 | Every event, run by the classes, is a step of the system and keeps the pipeline |
| `GrowableBuffers.StepsExactly` | memery/include/buffer.h:138-205 | What each operation does to size, capacity and cost while the headroom sum fits: a replaced block grows by half or to what is wanted; reserving leaves out the half, setting copies nothing, clearing keeps the capacity |
| `GrowableBuffers.GrowthIsPaidFor` | memery/include/buffer.h:138-205 | Over any run of append, set, resize and clear in which the headroom sum fits 32 bits whenever the block is replaced, at most three elements are copied per unit of the current capacity, and the size stays within it |
| `GrowableBuffers.CapacityFollowsPeak` | memery/include/buffer.h:190-205 | Over any run of these, wrap-around of the headroom sum included, the capacity stays within one and a half times the greatest size |
| `GrowableBuffers.CopyingIsLinear` | memery/include/buffer.h:138-205 | From an empty buffer, with headroom sums that fit, all copying is at most four and a half times the greatest size |
| `GrowableBuffers.HeadroomThreshold` | memery/include/buffer.h:190-205 | For a block of n elements filled at once and five more appended singly, all within 32 bits, that premise holds, and copying is within three times the capacity, if and only if n is at most 0xAAAAAAAA |
| `GrowableBuffers.WrappedCost` | memery/include/buffer.h:195-197 | Above it each single element appended to a full block copies the whole block |
| `GrowableBuffers.CopyingIsQuadratic` | memery/include/buffer.h:163-205 | With `EnsureCapacity` too, copying stays within the sum of the numbers below the capacity |
| `GrowableBuffers.ReservingIsNotPaidFor` | memery/include/buffer.h:163-165 | Some run with `EnsureCapacity` whose sizes and capacities all fit 32 bits copies more than a factor of its capacity if and only if the factor is below 2^31 - 1 |
| `GrowableBuffers.BufferT.constructor` | memery/include/buffer.h:30-31 | An empty buffer |
| `GrowableBuffers.BufferT.FromData` | memery/include/buffer.h:46-59 | Holds the data given, with the greater of size and capacity |
| `GrowableBuffers.BufferT.MovedFrom` | memery/include/buffer.h:37-44 | Takes over contents and block; the other is empty |
| `GrowableBuffers.BufferT.OnMovedFrom` | memery/include/buffer.h:185-188 | Size and capacity are 0 |
| `GrowableBuffers.BufferT.MoveAssign` | memery/include/buffer.h:91-100 | Takes over contents and block; a buffer assigned to itself is emptied |
| `GrowableBuffers.BufferT.Swap` | memery/include/buffer.h:173-177 | Exchanges contents |
| `GrowableBuffers.BufferT.EnsureCapacityWithHeadroom` | memery/include/buffer.h:190-205 | Keeps the contents, reaches the capacity wanted, and what it costs |
| `GrowableBuffers.BufferT.EnsureCapacity` | memery/include/buffer.h:163-165 | The same without headroom |
| `GrowableBuffers.BufferT.AppendData` | memery/include/buffer.h:149-156 | The contents are the old ones followed by the data |
| `GrowableBuffers.BufferT.SetData` | memery/include/buffer.h:138-142 | The contents are the data |
| `GrowableBuffers.BufferT.SetSize` | memery/include/buffer.h:158-161 | The new length, with the elements below it kept |
| `GrowableBuffers.BufferT.Clear` | memery/include/buffer.h:167-170 | Empty, with its capacity |
| `GrowableBuffers.BufferT.Equals` | memery/include/buffer.h:103-117 | True if and only if the contents are equal |
| `GccPhat.MaxElement` | math/gcc_phat.cc:73-74 | The first of the greatest elements of a range |
| `GccPhat.PickLag` | math/gcc_phat.cc:55-78 | The window lies inside the rotated data, and the result is the first of the lags within the margin and below half the number of samples, either way, at which the correlation at a mod n is greatest (at a + 1 mod n for odd n) |
| `GccPhat.PickIsUnique` | math/gcc_phat.cc:73-76 | Which determines it |
| `GccPhat.RotationAt` | math/gcc_phat.cc:57-60 | The rotation puts each lag's correlation at its offset from the middle, one off for odd counts |
| `GccPhat.PeakIsFound` | math/gcc_phat.cc:55-78 | A single peak in the window is found: exactly for an even number of samples, one less for an odd number |
| `GccPhat.EvenCountsAreExact` | math/gcc_phat.cc:55-78 | The pick is the lag of such a peak if and only if the number of samples is even |

## Left out

- `Builder::Host`: writes through the iterator of a string it has just emptied, so it has no defined result; hosts come from `Parse`.
- Percent-encoding, user names, passwords and IPv6 hosts, which the source itself leaves open. `QueryParameter` and `PathSize` are stubs or one-liners.
- Strings are sequences of characters; `tolower` is that of the C locale. `atoi` outside the int range is undefined in C; the model follows the usual library (saturate to 64 bits, cut to 32).
- Text longer than 2^63 - 1 characters.
- `std::map` and `std::set` are modelled as Dafny maps and sets visited in ascending order.
- The mutex of `FifoBuffer`: each public call is one step. Capacities near the `size_t` limit.
- The session's threads: a step is one API call or one handler; interleavings inside a call are not modelled. The destructors, listener calls, received data, host and port are left out.
- How long a recovery wait lasts, and that cancelling ends it early: a pending wait may end at any time.
- `int64_t` overflow of the unwrapper, and `UpdateLast` with numbers below -1 as a starting point of the stream theorems.
- The `interleaved_` assertion, time stamps, ids and sample rate of `AudioFrame`, `operator>>=`, `Mute`, `CopyFrom`, `UpdateFrame`: they add only easy members.
- `BufferT::SetData(const T&)`, which needs a `T` with `data()` and `size()`; appending a buffer's own block to itself; sizes that overflow 32 bits. `SetSize` says nothing about elements it adds.
- FFT, inverse FFT and the complex arithmetic of GCC-PHAT: the correlation is any sequence of real numbers, without NaN. Fewer than two samples or a negative margin give an empty or negative window in the source.
- HttpRequest, HttpCall, HttpClient, HttpResponse, EventLoop, logging and platform code: wrappers.
