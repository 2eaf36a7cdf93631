# smartedu textbook downloader — decision logic in Dafny

The userscript `user.js` adds a download button to the detail page of a textbook on the
National Smart Education Platform. One click does four things in order:

1. It reads the `contentId` of the textbook.
2. It requests the metadata document from the mirrors `s-file-1` … `s-file-4`, in that order, and stops at the first response that is OK and carries parsable JSON.
3. From that document it picks the title (or the default 未命名课本, "untitled textbook") and the first storage URL of the first `pdf` item.
4. It signs a GET request for that URL with a MAC header (`x-nd-auth`), built from the access token and MAC key found in local storage, and saves the file as `<title>.pdf`.

This project models that pipeline as pure functions over immutable data and proves its ordering, first-match, short-circuit and exact-format properties.

Modules (one file each):

- `Optional`: the `Option` datatype, used for null, a thrown exception or a rejected promise.
- `JsValues`: the JavaScript values parsed JSON can hold. It defines truthiness (`if (x)`, `a || b`), property reads that throw on null and undefined (the last duplicate member wins, as with `JSON.parse`), and conversion to a string.
- `Text`: decimal numerals and their reading back, `startsWith`/`endsWith`, `split` on one character together with its inverse `JoinWith`, and ASCII upper-casing.
- `Mirrors`: the probe results (`NetErr`, `NotOk`, `OkBadJson`, `OkJson`), the mirror URLs, and the probing. The reference fold `Resolve` is generic in the number of mirrors. The loop `ProbeMirrors` is written the way the script writes it.
- `Selector`: the title rule, `find` over `ti_items` (including the TypeError a null item raises), and the first storage URL.
- `Credentials`: the local-storage scan with its key filter, the double `JSON.parse`, and skipping entries that fail. It has a reference function `Locate` and the loop `ScanStore`.
- `Signer`: the nonce, the signing string and the header, with inverse readings (`ParseNonce`, `Split`, `ParseMacHeader`) that pin down their formats.
- `Download`: `main` as a whole. It takes an `Env` of platform collaborators and returns the branch reached and the metadata URLs requested.

Platform calls are parameters, never definitions:

- `fetch` of a URL is `string -> Probe`.
- `JSON.parse` is `string -> Option<JsValue>`.
- `new URL` is `string -> Option<Url>`.
- `TextEncoder`, HMAC-SHA256 and `btoa` form `Crypto`. HMAC returns `Option` because `crypto.subtle` may reject.
- `Date.now()` and the two `Math.random()` draws form `Entropy`. The jitter draw is an integer `0..200`; the suffix is the text of `toString(36).slice(-8)` before upper-casing.

## Model

| member | source | states |
|---|---|---|
| JsValues.Or | user.js:80-83 | `a \|\| b` yields the left operand exactly when it is truthy and the right one otherwise, so a truthy default makes the result truthy (the title is truthy, though a truthy value such as `[]` can still print as `""`) |
| Mirrors.MirrorUrlInjective | user.js:62-63 | mirror i is asked for `https://s-file-{i}.ykt.cbern.com.cn/zxx/ndrv2/resources/tch_material/details/{id}.json`, and different mirror numbers give different URLs, so no mirror is asked twice |
| Mirrors.ResolveFirstOk | user.js:58-75 | the requested URLs are a prefix of the mirror list in order; every requested mirror but the last failed (network error, non-OK status or unparsable body); the body found is the last requested mirror's OK JSON; nothing is found exactly when every mirror fails, and then every mirror was requested |
| Mirrors.ResolveStopsAt | user.js:62-70 | if mirror k is the first to answer OK with parsable JSON, the fold returns its body having requested exactly mirrors 0..k |
| Mirrors.ResolveAllFailed | user.js:62-75 | if every mirror fails, the fold finds nothing and has requested every mirror |
| Mirrors.ProbeMirrors | user.js:62-75 | the for-loop with `break` and the catch that moves on requests the same mirrors and finds the same body as the reference fold |
| Mirrors.NoProbeAfterOk | user.js:66-70 | an OK JSON response from mirror k means a body is found and no mirror after k is requested |
| Selector.FindPdf | user.js:84 | `find` stops at the first item whose `ti_format` is `"pdf"`, or throws at the first null item, after passing over everything before it; it finds nothing exactly when every item is passed over |
| Selector.FindPdfFirst | user.js:84 | if item k is pdf and every earlier item is passed over, then `find` returns item k |
| Selector.FindPdfIgnoresTail | user.js:84 | once a pdf item is found, appending further items (pdf or not) does not change the result |
| Selector.FirstStorage | user.js:86-87 | `s && s.length > 0` holds exactly for a non-empty array or string; an array yields its first element and a string its first character |
| Selector.Select | user.js:80-95 | the title is `data.title` when that is truthy and "未命名课本" otherwise; a falsy `ti_items` gives "no PDF", and so does an array in which `find` finds no pdf item; the selection throws exactly when `ti_items` is truthy but not an array or `find` reaches a null item first; when `find` returns an item, a storage is selected exactly when its `ti_storages` is non-empty, and it is the first one |
| Selector.NoPdfItemIsNoPdf | user.js:83-94 | any `ti_items` array whose items are all non-null and none has format `pdf`, the empty array included, gives "no PDF" |
| Selector.FirstPdfDecides | user.js:84-94 | with the first pdf item at k, the selection never throws; it succeeds exactly when that item's storages are non-empty and then uses its first storage, whatever later items hold |
| Selector.EpubOnlyIsNoPdf | user.js:84-94 | metadata whose only item is an epub gives "no PDF" |
| Credentials.Locate | user.js:162-175 | no credential exactly when no entry has a `ND_UC_AUTH…token` key whose value decodes through both parses |
| Credentials.LocateFirst | user.js:163-170 | the credential returned is the one decoded from the first usable entry in index order |
| Credentials.ScanStore | user.js:163-174 | the loop with `try`/`continue` returns the decoded value of the first usable entry, or null when no entry is usable |
| Credentials.SkipsMalformedEntry | user.js:166-170 | a candidate whose value fails to parse, placed ahead of a well-formed candidate, is skipped, and the well-formed one is returned |
| Credentials.Decode | user.js:167-169 | a value that does not parse as JSON never yields a credential, and a decoded credential comes from an outer document with a readable `value` |
| Credentials.DecodeOf | user.js:167-169 | once the outer document parses to an object, an inner text that does not parse skips the entry, and an inner object gives the credential `{accessToken: inner.access_token, macKey: inner.mac_key}` |
| Credentials.DecodeNull | user.js:167-169 | an outer or inner document that parses to `null` makes the property read throw, so the entry is skipped |
| Signer.Jitter | user.js:137 | the jitter is between 700 and 900 |
| Signer.JitterOnto | user.js:137 | every jitter from 700 to 900 can be drawn |
| Signer.NonceRoundTrip | user.js:136-138 | the nonce reads back as the decimal time `now + diff`, a ':' and the upper-cased suffix, with the time 700 to 900 ms after the clock |
| Signer.NonceExcludes | user.js:138 | quotes and newlines occur in the nonce only if they occur in the raw suffix |
| Text.ToUpperAscii | user.js:138 | upper-casing keeps the length and changes only lower-case ASCII letters, each into its own upper-case letter |
| Text.DecimalRoundTrip | user.js:138 | the decimal text of the nonce time reads back as that time |
| Signer.SigningStringFields | user.js:140-143 | when no field holds a newline, the signing string splits on newlines into exactly nonce, method (unchanged), pathname+search+hash, host and a trailing empty field |
| Signer.MacHeaderRoundTrip | user.js:158 | when the token's text and the nonce hold no `"`, the header `MAC id="…",nonce="…",mac="…"` reads back as its token, nonce and mac |
| Signer.AuthEncrypt | user.js:135-159 | an unparsable URL rejects, even without a credential; the result is `""` exactly when the URL parses and no credential is stored; any other result starts with `MAC id="` and ends with a quote; the promise rejects exactly when the URL does not parse, or a credential is stored and the HMAC fails |
| Signer.SignedHeaderText | user.js:140-158 | for any stored token, quotes included, with a parsable URL and a succeeding HMAC the header is exactly `MAC id="<token text>",nonce="<nonce>",mac="<base64 of the HMAC of the signing string>"` |
| Signer.SignedHeaderAgrees | user.js:136-158 | with a parsable URL, a stored credential and a succeeding HMAC, a header is produced; for a token whose text holds no `"` (and a raw suffix with no `"` or newline), it reads back as naming the stored token; its nonce is the first field of the string the MAC was computed over, with a time 700 to 900 ms after the clock; its mac is base64 of the HMAC of that string under the MAC key |
| Download.SaveName | user.js:118 | the file name is the title followed by `.pdf` |
| Download.AfterProbing | user.js:77-102 | the "cannot fetch configuration" branch is taken exactly when no body was found or the body is falsy; for a truthy body, "no PDF" exactly when the selection finds none, the parse-failure branch exactly when the selection throws or `authEncrypt` rejects, and otherwise the request for the selected storage URL (as a string), saved as the title plus `.pdf`, carrying `authEncrypt`'s header |
| Download.Main | user.js:47-103 | a missing or empty id gives the missing-id branch and requests nothing; otherwise the requested URLs are the first one to four mirror URLs in order, all but the last failing; a download is issued only after an OK truthy body, with a `.pdf` file name, and with an empty header when no credential is stored; fewer than four mirrors are requested only when the last one answered OK with parsable JSON; the configuration branch is taken exactly when the last mirror requested did not answer OK with a truthy body, and otherwise the outcome is dispatched on that body as `Download.AfterProbing` states |
| Download.AllMirrorsFail | user.js:58-101 | if all four mirrors fail, each is requested once, in order, and the no-configuration branch is taken with no download |
| Download.FirstOkMirrorEndsProbing | user.js:62-75 | if mirror i is the first to answer OK with parsable JSON, exactly mirrors 1..i are requested |
| Download.MathBookSelection | user.js:80-87 | an example document (title "Math Book", one pdf item stored at `https://cdn/x.pdf`) is truthy and selects the title "Math Book" and the storage `https://cdn/x.pdf` |
| Download.MathBookFileName | user.js:118 | a book titled "Math Book" is saved as `Math Book.pdf` |
| Download.ThirdMirrorResolves | user.js:62-75 | if mirrors 1 and 2 fail and mirror 3 answers OK, the fold returns mirror 3's body having requested exactly mirrors 1 to 3 |
| Download.ThirdMirrorServes | user.js:58-92 | if mirrors 1 and 2 fail, mirror 3 serves a document that selects a title and a parsable URL, and no credential is stored, then exactly mirrors 1 to 3 are requested and that URL is requested with the title's `.pdf` name and an empty header |
| Download.NoCredentialStillDownloads | user.js:86-92 | with no stored credential, a selected storage URL that parses still leads to the download request, with an empty `x-nd-auth` header and the title's `.pdf` file name |
| Download.MathBookExample | user.js:58-92 | for any non-empty id ("12345", say), with mirrors 1 and 2 answering 404 and mirror 3 serving the example document titled "Math Book", mirror 4 is never requested, and with no stored credential `https://cdn/x.pdf` is fetched and saved as `Math Book.pdf` with an empty `x-nd-auth` header |

## Behaviour of the script worth knowing

The model follows the code in each of these cases.

- An OK response whose body does not parse as JSON is not a success. `response.json()` throws inside the `try`, so the loop moves on to the next mirror (`OkBadJson`).
- An OK response whose JSON is falsy (`null`, `0`, `""`, `false`) ends the loop, yet `if (data)` then takes the "cannot fetch configuration" branch (`Download.AfterProbing`).
- Each component does not get its own user message. A missing credential gives an empty `x-nd-auth` header and the download is still issued. A thrown error while selecting or signing (an invalid storage URL, a rejected HMAC, a non-array truthy `ti_items`, a null item before the pdf item) gives the single "could not parse textbook data" branch (`ParseFailed`).
- `new URL(url)` runs before the credential lookup. An unparsable storage URL therefore fails even when no credential is stored.
- The suffix is not guaranteed to be eight upper-case base-36 characters. `Math.random().toString(36).slice(-8)` may be shorter or contain `.`, so the raw suffix is unconstrained text.
- A credential is returned even when `access_token` or `mac_key` is missing. The fields are then `undefined`, which prints as `undefined` in the header and encodes as an empty key.

## Left out

- The button, its styling, the `load` listener, `setTimeout`, `alert` and `console`: UI side effects. The model reports only which branch is reached.
- `GM_xmlhttpRequest`, the status check in `onload`, blob handling, the anchor click and object-URL cleanup: file transfer I/O. The model ends at the request descriptor (URL, file name, `x-nd-auth` value).
- `fetch`, `JSON.parse`, `response.json()`, `new URL`, `TextEncoder`, `crypto.subtle` and `btoa`: platform calls. They are uninterpreted parameters, so the base64 round trip of the digest is not modelled.
- `Date.now` and `Math.random`: clock and randomness, passed in as `Entropy`. How the float becomes base-36 text is not modelled.
- `async`/`await`: the steps are strictly sequential, so they are modelled as plain function composition.
- Text.Decimal: prints any natural number as plain digits. JavaScript loses precision above 2^53 and switches to exponent form at 10^21, which a millisecond clock does not reach.
- Signer.SignedHeaderAgrees: a token whose text contains `"` makes the header ambiguous to read back, so the read-back of its fields is stated only for quote-free tokens; `Signer.SignedHeaderText` fixes the header's text for every token.
- Text.ToUpperAscii: upper-cases ASCII letters only, which is every letter a base-36 numeral holds. Full Unicode case mapping is not modelled.
- Selector.FirstStorage: treats a JSON object as having no `length`, although an object with numeric `length` and `"0"` members would pass the script's test. A string's first element is taken as its first Unicode character, whereas the script's `s[0]` is one UTF-16 code unit; they differ when the string starts with a character outside the Basic Multilingual Plane.
