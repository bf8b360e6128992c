# sedproxy response rewriting, modelled in Dafny

sedproxy is a reverse proxy that rewrites upstream responses with regular
expressions. This project models the core of that rewriting and proves what
it promises:

- **Rule matching and ordered substitution** (`substitute.go`, module
  `Substitute`). `SubstItem` and `SubstGroup` are classes whose `prepare`
  methods fill in the compiled fields. `Substitutions` is a sequence of
  groups, and its `prepare` and `Rewrite` are methods over that sequence. `isMatch` is the
  group's guard. The `replaceAll` loops are left folds over the items.
  `Rewrite` reads the body lazily and sets it only when some group matched.
  It is proved against a reference function, `RewriteOutcome`.
- **Content-encoding selection and body reset** (`response.go`, module
  `Encoding`). `newResponse` picks a codec from the lower-cased
  `Content-Encoding` value. `readBody` and `setBody` use that codec. `setBody`
  writes the encoded length into the header and the field, or changes
  nothing when encoding fails.
- **Prefix-keyed message lookup** (`message.go`, module `Messages`).
  `findKeys` walks the map in an arbitrary order, then sorts. It is proved to
  return exactly the matching keys, shortest first, and their message count.
  `getMessages` concatenates their lists, or returns nil when there are none.
  The process-wide `defaultStructuredMessages` is a `MessageStore` object.
- **Director host override and response hook** (`proxy.go`, module
  `Proxy`). `newProxy` installs the proxy's own hooks. `filterRequest`
  runs the original director and then forces `Host`. `filterResponse`
  passes on `Rewrite`'s effect and error.

The supporting modules are:

- `Base`: bytes, `Option`, `Result`, errors.
- `GoStrings`: ASCII `strings.ToLower`, `strings.HasPrefix`,
  `sort.Strings` as an insertion sort, `strconv.Itoa`, and string-to-UTF-8
  conversion.
- `Regex`: the regexp package as an opaque `Engine`.
- `Http`: header, body and response.

Foreign behaviour is passed in as function values, so every theorem holds
for every choice of them:

- regexp compilation, matching and replacement;
- `mime.ParseMediaType`;
- the gzip, zlib and brotli libraries;
- the director built by `httputil`.

`Rewrite` reads the raw body with `ioutil.ReadAll` (substitute.go:165-167,
187) and does not decode it: substitution works on the bytes as they arrive,
compressed or not. The codec path of `response.go` is its own component,
module `Encoding`, and `Rewrite` is not wired to it.

## Model

| member | source | states |
|---|---|---|
| Substitute.MediaTypeSetIs | substitute.go:93-100 | the prepared media-type set is {text/html} for an empty list and exactly the listed types otherwise |
| Substitute.SubstItem.Prepare | substitute.go:27-35 | succeeds iff Src compiles; on failure returns that pattern's error and leaves the item unchanged; on success the compiled pattern and replacement bytes are set |
| Substitute.SubstItem.ReplaceAll | substitute.go:23-25 | one item replaces every match of its compiled pattern with its replacement bytes |
| Substitute.PrepareItems | substitute.go:47-55 | prepares items in order; the error is that of the first item whose pattern does not compile; success means every item is prepared; no item is left half-changed |
| Substitute.ReplaceAllItems | substitute.go:40-45 | equals the left fold of the items' replacements in list order, each applied to the previous output |
| Substitute.SubstGroup.IsMatch | substitute.go:71-83 | never matches an empty media type, a group with no items, or a media type outside the prepared set |
| Substitute.SubstGroup.IsMatchView | substitute.go:71-83 | on a prepared group, isMatch is exactly the four-part guard over the group's value |
| Substitute.SubstGroup.Prepare | substitute.go:92-116 | sets the media-type set whatever happens; the error is that of the first failing pattern, path first and then the items; success means the group and all its items are prepared; a bad path leaves the items untouched |
| Substitute.SubstGroup.ReplaceAll | substitute.go:85-90 | equals the left fold of the group's items in list order |
| Substitute.PreparedCompiles | substitute.go:102-113 | a prepared group's path and item patterns all compile |
| Substitute.PrepareAll | substitute.go:121-129 | succeeds iff every path and item pattern of every group compiles; otherwise returns the error of the first one that fails, in configuration order; success means every group and item is prepared |
| Substitute.ApplyRulesAppend | substitute.go:40-45 | applying two lists of items in turn is applying their concatenation |
| Substitute.ApplyRulesFirst | substitute.go:40-45 | the first item sees the original data, and the rest see its output |
| Substitute.SwapCommuting | substitute.go:40-45 | two adjacent items whose replacements commute can be swapped without changing the result |
| Substitute.OrderMatters | substitute.go:40-45 | there is an engine for which applying two items in the two orders gives different bodies |
| Substitute.RewriteBodyNoMatch | substitute.go:181-184 | when no group matches, the rewritten body is the original body and no rule is applied |
| Substitute.RewriteBodyFlattens | substitute.go:181-194 | rewriting applies the rules of the matching groups, groups in configuration order and items in list order, each to the previous output |
| Substitute.RewriteBodySkips | substitute.go:72-81 | a group with no items, a media type outside the group's set, or an empty media type contributes nothing to the result |
| Substitute.ReadBody | substitute.go:165-167 | yields all the bytes of the body and its read error, and leaves the body drained |
| Substitute.SetBody | substitute.go:169-174 | the body yields exactly b, Content-Length is the decimal len(b), ContentLength is len(b), and other headers are kept |
| Substitute.Rewrite | substitute.go:176-200 | no matching group: returns nil, never reads the body, leaves body and headers unchanged. Otherwise: reads the body exactly once; a read error is returned; else the body becomes the matching groups applied in order and the length is reset |
| Substitute.GoApplyRulesBytes | substitute.go:40-45 | over Go slices the items' fold gives the same bytes, and after at least one item it is nil exactly when it has none, as regexp's ReplaceAll returns nil for an empty result |
| Substitute.GoRewriteRunTracks | substitute.go:176-194 | the loop as written, with nil as its sentinel, stops exactly when some group matches and the body fails; it has read the body exactly when some group matched; its data then holds the rewritten bytes and is nil only when they are empty |
| Substitute.AsWrittenAgrees | substitute.go:176-200 | as written, Rewrite leaves the same body, header, ContentLength and error as the reference unless the rewritten body is empty; then the body is drained and header and ContentLength keep their upstream values |
| Substitute.AsWrittenKeepsStaleLength | substitute.go:185-196 | for body "abc" and one rule that deletes it, the code as written leaves Content-Length "3" and ContentLength 3 on a drained body, where the reference sets both to 0 |
| Http.GetHeader | substitute.go:154 | Header.Get returns the first value, or "" when the key is absent |
| Http.SetHeader | substitute.go:172 | Header.Set makes the key's only value the new one and keeps every other key |
| Http.MediaType | substitute.go:153-163 | "" when Content-Type is absent or empty or fails to parse; otherwise the parsed media type |
| Regex.Compile | substitute.go:28-31 | compiling succeeds iff the pattern is valid, and fails with that pattern's error |
| Regex.FirstInvalid | substitute.go:47-55 | a loop that compiles in order and stops at the first failure returns nil iff all compile, and otherwise the error of the first pattern that does not |
| Regex.FirstInvalidAppend | substitute.go:121-129 | compiling two lists in turn fails with the first list's error if it has one, else with the second's |
| Regex.FirstInvalidAt | substitute.go:47-55 | when pattern i fails and all before it compile, the loop returns pattern i's error |
| Encoding.SelectCodecSpec | response.go:124-133 | the codec is gzip, deflate or brotli exactly when the lower-cased Content-Encoding is "gzip", "deflate" or "br"; any other value selects identity and is never an error |
| Encoding.SelectCodecIgnoresCase | response.go:124 | every spelling of a label, in any ASCII case, selects that label's codec |
| Encoding.SelectCodecAbsent | response.go:124-132 | an absent Content-Encoding header selects identity |
| Encoding.Decode | response.go:24-27 | identity decode is ReadAll: the body's bytes, or its read error |
| Encoding.Encode | response.go:29-31 | identity encode returns the bytes themselves with length len(b) and no error; any successful encode reports the length of the stream it produced; a compressor's encode fails exactly when its library fails |
| Encoding.CodecRoundTrip | response.go:24-31 | decoding what was encoded gives back the bytes, always for identity and for a compressor whenever its library round-trips |
| Encoding.CodedResponse.constructor | response.go:121-139 | the codec is fixed once, from the lower-cased Content-Encoding, so readBody and setBody use the same one |
| Encoding.CodedResponse.ReadBody | response.go:157-159 | the body is decoded with the response's codec |
| Encoding.CodedResponse.SetBody | response.go:161-170 | on an encode error the error is returned and the response is unchanged; on success the body is the encoded stream and both Content-Length and ContentLength are the length encode reported |
| GoStrings.ToLower | response.go:124 | same length, with every ASCII letter lower-cased and nothing else changed |
| GoStrings.EqualFoldLower | response.go:124 | strings equal up to ASCII case have the same lower-case form |
| GoStrings.Decimal | substitute.go:172 | strconv.Itoa of a length is a non-empty string of digits without a leading zero |
| GoStrings.DecimalRoundTrip | substitute.go:172 | the Content-Length value parses back to the length it was made from |
| GoStrings.Utf8 | substitute.go:33 | []byte(s) has at least one byte per character, and exactly one for ASCII text |
| GoStrings.LessIrreflexive | message.go:102 | the order sort.Strings uses is irreflexive |
| GoStrings.LessTransitive | message.go:102 | the order sort.Strings uses is transitive |
| GoStrings.LessTotal | message.go:102 | any two different strings are ordered one way or the other |
| GoStrings.ProperPrefixLess | message.go:97-102 | a proper prefix sorts before the string it is a prefix of |
| GoStrings.SortStrings | message.go:102 | the result is sorted and is a permutation of the input |
| GoStrings.PermutationDistinct | message.go:96-102 | sorting keys that have no repetitions gives keys that have none |
| GoStrings.StrictlySortedUnique | message.go:102 | a strictly ascending list is determined by its elements |
| Messages.Message.Prepare | message.go:19-27 | succeeds iff Src compiles; on failure the message is unchanged; on success the compiled pattern and bytes are set |
| Messages.PrepareMessages | message.go:31-39 | prepares in order and returns the error of the first message that does not compile; success means every message is prepared |
| Messages.PrepareStructured | message.go:83-91 | succeeds iff every pattern in every list compiles; the error returned is the first error of one of the lists; success means every message is prepared |
| Messages.PrefixKeysSpec | message.go:96-102 | the keys found for s are exactly the map keys that are prefixes of s, strictly ascending, and therefore shortest first |
| Messages.TotalPermutation | message.go:96-102 | the message count does not depend on the order in which the keys were visited |
| Messages.ConcatLength | message.go:111-115 | the concatenated lists hold exactly the counted number of messages |
| Messages.FindKeys | message.go:93-104 | returns exactly the keys that are prefixes of s, strictly ascending and equal to the shortest-first list of those prefixes, with sum equal to the total length of their lists |
| Messages.GetMessages | message.go:106-116 | nil exactly when that sum is 0; otherwise the concatenation of the lists under the sorted keys, of length sum |
| Messages.MessagesExtend | message.go:106-116 | the messages for a path begin with the messages for any prefix of that path, in the same order |
| Messages.GlobalMessagesFirst | message.go:56 | messages stored under "" come first in the result for every path |
| Messages.MessageStore.constructor | message.go:118 | the store starts empty |
| Messages.MessageStore.ReadMessageFile | message.go:41-58 | a decode error or a bad pattern is returned and the store is unchanged; otherwise the list is stored under "", all its messages prepared |
| Messages.MessageStore.GetMessagesFor | message.go:60-62 | getMessages looks the path up in the process-wide store |
| Proxy.Directed | proxy.go:33-38 | with a non-empty override, Host is the override; with none, the request is exactly what the original director returned; URL and headers are always the director's |
| Proxy.OverrideHidesDirectorHost | proxy.go:35-37 | with an override, the Host the original director chose has no effect |
| Proxy.ReverseProxy.constructor | proxy.go:21 | the library proxy starts with its own director and no response hook |
| Proxy.Proxy.constructor | proxy.go:20-31 | the override is the target URL's host, the original director is kept, and the proxy's filterRequest and filterResponse replace the hooks |
| Proxy.Proxy.FilterRequest | proxy.go:33-38 | runs the original director once on the incoming request, then forces Host when an override is set, changing nothing else |
| Proxy.Proxy.FilterResponse | proxy.go:40-51 | has exactly Rewrite's effect; returns Rewrite's error unchanged, and nil when Rewrite succeeds |

## Left out

- Regular expressions: `regexp.Compile`, `MatchString` and `ReplaceAll`, including `$n` expansion, are opaque functions of an `Engine`. Compiling is identified with its source expression.
- `mime.ParseMediaType` is an opaque partial function. Its failure yields `""`.
- The gzip, zlib and brotli codecs (response.go:35-114) are opaque `compress`/`decompress` functions that may fail. Their round trip is an assumption (`RoundTrips`), not a theorem.
- Encoding.CodecRoundTrip: the round trip for the compressing codecs is proved only under the `RoundTrips` assumption on the library. The code gives no guarantee of it.
- Encoding.CodedResponse.MediaTypeOf and Encoding.CodedResponse.PathOf (response.go:141-155) are the same `mediaType` as substitute.go's and the request path. They carry no contract of their own.
- GoStrings.ToLower: only ASCII letters are lower-cased. Go's `strings.ToLower` lower-cases every Unicode letter. Two non-ASCII letters become ASCII under Go: U+0130 becomes `i` and U+212A becomes `k`. So a value such as `gz\u0130p` selects gzip in Go but identity in the model.
- Go strings are modelled as sequences of code points, not bytes. UTF-8 keeps both prefixes and byte order, so `HasPrefix` and `sort.Strings` agree.
- Substitute.Rewrite: Go uses a nil `data` slice as its "not read yet" sentinel (substitute.go:185, 195). `ReplaceAll` returns nil for every empty result, not only for an empty body. So when the matching groups rewrite a non-empty body to nothing, Go returns at substitute.go:195-196 without calling `setBody`. The body has already been drained by `readBody`, yet `Content-Length` and `ContentLength` keep the upstream length. A later matching group would also read the drained body a second time. `Rewrite` uses an explicit "read yet" option instead and sets Content-Length to "0" in that case. The code as written is modelled by `RewriteAsWritten`, and the difference is recorded under "## Findings".
- Go's `int`/`int64` widths: lengths are unbounded naturals. `ContentLength` overflow cannot happen for in-memory bodies.
- Header names are taken to be canonical already. `textproto` canonicalisation is not modelled.
- File opening and JSON decoding in `LoadSubstitutions`, `StructuredMessages.load` and `readMessageFile`. `readMessageFile` receives the decode outcome as a parameter. `StructuredMessages.load` is not modelled beyond its call to `prepare`.
- `httputil.NewSingleHostReverseProxy`'s director is a parameter. `ReverseProxy` keeps only its two hooks. `ServeHTTP` and the forwarding itself are not modelled.
- Timing and the access log in `filterResponse` (proxy.go:41, 46-49).
- Concurrency of request handling. The prepared configuration is only read after preparation.
- `main.go` (flags, environment, listening, an older copy of the substitution code) and `proxy_test.go` (an HTTP fixture harness) are not part of this model.

## Findings

| source | as written | input that shows it | evidently intended | confidence | as-written member | corrected member |
|---|---|---|---|---|---|---|
| substitute.go:185-198 | a nil `data` stands for "body not read yet", but `ReplaceAll` also returns nil for an empty result, so `setBody` is skipped after the body was drained | body `abc` with `Content-Length: 3`, one matching group with an item `src "abc"`, `rep ""`: the response keeps `Content-Length: 3` and `ContentLength` 3 and yields no bytes | the body is set to the empty rewrite and both lengths become 0 | not executed; relies on regexp's `ReplaceAll` returning nil for an empty result | Substitute.AsWrittenKeepsStaleLength | Substitute.Rewrite |
