# Verification of the EST server

A model, in Dafny, of an enrolment server (RFC 7030): its DER writer and readers, its CsrAttrs
encoder, its base64 bodies, its re-enrolment identity check, and the way enrolments run
concurrently over a file store that must survive failures and crashes. `dafny verify dfyconfig.toml`
checks all of it.

## What is modelled

**DER.** `Der` and `Oid` hold the byte rules of ITU-T X.690 (sections 8.1.3, 8.3, 8.14, 8.19, 10.1,
11.1, 11.5) with the limits of the library underneath: the builder gives a length to at most
2^32 - 2 octets of content, the reader counts header and content together in 32 bits.
`Builder` is the library's single buffer: an element is opened with one octet held back, and
closing it fills in the length, shifting the content for a long form. Every use of it is tied to
a pure encoder, and the encoder to a reader. `Pkcs7` is the certs-only message; `CsrGrammar`,
`CsrAttrs` and `CsrAttrsProperties` are the CSR attributes, with a reader written here that
`CsrStrictness` proves strict. What these encoders take and write is also said without them:
`Spelling` says on characters which strings are identifiers and hexadecimal, `CsrDenotation` on option
fields which entries are asked for, `CsrBytes` and `Pkcs7Bytes` in octets what is written.

**Bodies.** `Base64` and `BodyEncoding`: wrapping at 76 characters, the 65536-byte cap, whitespace
removal rune by rune, with malformed UTF-8 rewritten.

**Identity.** `Sorting`, `Identity` and `IdentityReadings`: the tagged, sorted, newline-joined string
that stands for the four families of alternative names, and exactly what comparing two of them decides.

**Store and enrolment.** `Serial` and `Paths` give serials their file names. `AtomicWrite` is one
call of `writeFileAtomic` at the granularity of system calls; `StoreMachine` interleaves any number
of them. `Enrolment` is the handlers' machine on top: each request is authenticated, decoded,
matched, issued, written in three calls and answered, interleaved with every other request, any step
failing, the process dying anywhere and starting again. `EnrolmentProperties` says what holds over
whole runs, `Admission` which requests come to the CA, `EnrolmentProgress` that every request can be brought to an answer, `Reenrolment` what
holds along chains of renewals. `FileStore` and `Handlers` are the code's own methods, run for one
request; `Sequential` shows each such run to be a run of the machine. `LocalCa` is the in-process
CA, and the chains of `Reenrolment` run through it. `OpensslCa` is the other backend with its mutex,
and `OpensslEnrolment` joins it to the enrolment machine, where the distinctness of serials is then
a theorem.

Strings hold one byte per character, as the source's do. What a library or the system does is a
parameter: parsers, certificate creation, random bytes, clock readings and faults.

## Where the code and its comments differ

- internal/estapi/identity.go:28-30 and :41 speak of a set, "duplicate-insensitive". The code compares
  multisets; a repeated name always changes the string (`Identity.RepetitionCounts`).
- The comparison stands for equality of the four families when names are free of newlines. DNS names and email
  addresses need not be: `IdentityReadings.NewlineAccepted` is an input where different families compare equal, and
  `IdentityReadings.DeterminedExactly` says for exactly which certificates there is none.
- internal/store/file.go:19-21 promises fixed-width names that sort. Among naturals they do up to a bound of exactly 16^40
  (`Serial.SortsExactly`), which covers every serial drawn by internal/ca/serial.go; negative serials sort in
  reverse (`Serial.NegativeNamesSortInReverse`).
- internal/ca/serial.go:14-16 aims at section 4.1.2.2 of RFC 5280, which asks for positive serials. A serial is zero
  exactly when all bits but the top one are drawn zero (`Serial.PositiveExactly`).
- The encoder of internal/pkcs7/pkcs7.go writes messages five octets longer than its decoder can read, at
  the limit of 32 bits (`Pkcs7Limits.RoundTripBySize`).
- An object identifier whose first two arcs overflow 64 bits when packed is written without them
  (`Oid.OverflowCollides`); `CsrAttrsProperties.ResponseReadBack` therefore carries the exact condition.

## Model

| member | source | states |
|---|---|---|
| Der.ReadAnyExact | internal/pkcs7/pkcs7.go:84-87 | the element reader accepts exactly the writer's minimal encodings shorter than 2^32, each in one way |
| Der.ParseEncode | internal/csrattrs/csrattrs.go:158-183 | any list of element trees is parsed back from its encoding |
| Oid.IntSize | internal/ca/serial.go:14-16 | k octets of INTEGER content hold exactly the values from -256^k/2 up to 256^k/2 |
| Oid.OidRoundTrip | internal/csrattrs/csrattrs.go:204-211 | an identifier is read back if and only if no arc is negative and the packed pair does not overflow |
| Oid.DecodeOidCanonical | internal/pkcs7/pkcs7.go:89-95 | only one content is read as a given identifier |
| Oid.OverflowCollides | internal/csrattrs/csrattrs.go:190-194 | two different accepted identifiers with the same octets |
| Builder.Builder.Open | internal/pkcs7/pkcs7.go:53-53 | opening an element appends its tag and one octet held back, and gives that octet's position |
| Builder.Builder.Close | internal/pkcs7/pkcs7.go:53-70 | the back-patched buffer is the old output followed by the element with its minimal length; too long is an error |
| Builder.Builder.Run | internal/pkcs7/pkcs7.go:52-76 | for every nest of calls the single buffer holds what the recursive encoder says, and an error anywhere surfaces at the end |
| Builder.Builder.SetError | internal/csrattrs/csrattrs.go:204-209 | once an error is set there is no output |
| Pkcs7.EncodeCertsOnly | internal/pkcs7/pkcs7.go:45-77 | refuses exactly a nil or empty certificate; otherwise writes the certs-only message of the raw values in input order, or fails for length |
| Pkcs7.DecodeCertsOnly | internal/pkcs7/pkcs7.go:81-148 | the cursor-moving reader computes the recursive one, on every input |
| Pkcs7.AcceptedLanguage | internal/pkcs7/pkcs7.go:84-129 | the header checks accept exactly the messages of the stated shape, with everything the code passes over left arbitrary |
| Pkcs7.CertsCoverField | internal/pkcs7/pkcs7.go:131-147 | the returned raw values concatenate to exactly the certificates field |
| Pkcs7.ReadAnyShrinks | internal/pkcs7/pkcs7.go:132-139 | each turn of the element loop consumes at least a two-byte header |
| Pkcs7.RoundTrip | internal/pkcs7/pkcs7.go:45-148 | every list of parsed certificates is decoded from its encoding, in order, exactly when the encoding is shorter than 2^32 |
| Pkcs7.EncodeInjective | internal/pkcs7/pkcs7.go:45-77 | different lists of certificate elements never get the same encoding |
| Pkcs7Limits.EncodedSize | internal/pkcs7/pkcs7.go:52-76 | a message is written if and only if the certificates total at most 2^32 - 51 octets, and is at most 55 longer |
| Pkcs7Limits.RoundTripBySize | internal/pkcs7/pkcs7.go:45-148 | by total certificate length, for every list: up to 2^32 - 56 written and read back, the next five written but not read, above that not written |
| Pkcs7Limits.WrittenButNotRead | internal/pkcs7/pkcs7.go:85-87 | one certificate element of a length the writer takes and the reader refuses |
| Pkcs7Bytes.EncodedBytes | internal/pkcs7/pkcs7.go:52-70 | every message octet by octet: id-signedData, version, empty sets, id-data and the lengths around the certificates |
| Pkcs7Bytes.AcceptedBegins | internal/pkcs7/pkcs7.go:84-95 | whatever is read begins with the eleven octets of id-signedData |
| Text.ParseOidLoop | internal/csrattrs/csrattrs.go:186-197 | the loop over fields gives every field's number or fails if one is none |
| Spelling.ParseOidAccepts | internal/csrattrs/csrattrs.go:186-197 | a string is taken if and only if every field between dots is an optional sign and at least one digit, of a value in 64 bits |
| Spelling.ParseOidExactly | internal/csrattrs/csrattrs.go:186-197 | the arcs are, in order, the signed decimal values of the fields, each digit at its weight |
| Text.ParseDotted | internal/csrattrs/csrattrs.go:186-197 | the usual spelling of an identifier is read as that identifier |
| Text.HexRoundTrip | internal/csrattrs/csrattrs.go:249-249 | the hexadecimal spelling of bytes is read as those bytes |
| Text.HexAccepted | internal/csrattrs/csrattrs.go:277-281 | exactly even-length strings of hexadecimal digits are accepted |
| Spelling.HexExactly | internal/csrattrs/csrattrs.go:249-249 | the bytes read are those two characters each stand for, in upper or lower case |
| CsrGrammar.EntryReadBack | internal/csrattrs/csrattrs.go:204-380 | the strict reader recovers an entry from its tree if and only if each identifier in it can be read back |
| CsrGrammar.TemplateReadBack | internal/csrattrs/csrattrs.go:305-316 | absent and present optional fields of a template are told apart by tag alone |
| CsrGrammar.AttributesReadBack | internal/csrattrs/csrattrs.go:358-380 | the attributes field holds one attribute or none, and its type says whether every value is present |
| TreeWriter.TreeWireIs | internal/csrattrs/csrattrs.go:158-183 | of all nested length limits only the outermost matters |
| CsrAttrs.AddOid | internal/csrattrs/csrattrs.go:204-211 | appends the identifier's element, or sets the error for a malformed or refused string |
| CsrAttrs.AddAttribute | internal/csrattrs/csrattrs.go:217-226 | appends type and one-value SET; an error in the value's continuation is the attribute's |
| CsrAttrs.AddKeyAlgorithmAttribute | internal/csrattrs/csrattrs.go:228-237 | appends the key entry: curve before modulus size before no constraint |
| CsrAttrs.MarshalExtensions | internal/csrattrs/csrattrs.go:242-256 | the loop gives the encoded extensions, or fails for a bad identifier or hexadecimal value |
| CsrAttrs.AddExtensionReqAttribute | internal/csrattrs/csrattrs.go:258-265 | the marshalled bytes inside the attribute are the extension entry's tree |
| CsrAttrs.AddExtensionTemplate | internal/csrattrs/csrattrs.go:270-285 | critical only when true, value only when given |
| CsrAttrs.AddExtensionReqTemplateAttribute | internal/csrattrs/csrattrs.go:287-295 | appends the attribute whose value lists the extensions in order |
| CsrAttrs.AddTemplate | internal/csrattrs/csrattrs.go:305-316 | appends the template's tree: version, subject if any, key if any, attributes always |
| CsrAttrs.AddSubjectTemplate | internal/csrattrs/csrattrs.go:322-337 | one SET per name, blank or dictated |
| CsrAttrs.AddSubjectPKInfoTemplate | internal/csrattrs/csrattrs.go:342-351 | the implicitly tagged key type with its curve if given |
| CsrAttrs.AddTemplateAttributes | internal/csrattrs/csrattrs.go:358-380 | empty without extensions, otherwise the attribute section 3.4 of RFC 9908 forces |
| CsrAttrs.EncodeOptions | internal/csrattrs/csrattrs.go:150-184 | failure, no content, or the builder's bytes for the entries the options denote |
| CsrAttrsProperties.ResponseIs | internal/csrattrs/csrattrs.go:150-184 | a response is the encoded tree of the denoted entries in order, unless some string is malformed or it is too long |
| CsrAttrsProperties.EncodeFailsExactly | internal/csrattrs/csrattrs.go:123-211 | encoding fails if and only if the combination of options is one Validate refuses, some reached string is not an identifier or hexadecimal, read character by character, or the result is too long |
| CsrAttrsProperties.NoContentExactly | internal/csrattrs/csrattrs.go:138-156 | there is no content if and only if the options ask for none of the five things |
| CsrAttrsProperties.ResponseDenotes | internal/csrattrs/csrattrs.go:150-184 | a response is the encoding of a list of entries that the options denote field by field, and every such list that fits is one |
| CsrDenotation.EntriesDenoted | internal/csrattrs/csrattrs.go:158-175 | the entries encoded are exactly those the options denote, each part said of one option field and in its place |
| CsrBytes.KnownIdentifiers | internal/csrattrs/csrattrs.go:36-39 | the four identifiers the encoder writes itself, octet by octet |
| CsrBytes.EntryBytes | internal/csrattrs/csrattrs.go:204-316 | the octets of each kind of entry: tags, lengths and contents written out |
| CsrBytes.ExtBytes | internal/csrattrs/csrattrs.go:270-285 | the octets of one extension: critical as ff only when true, the value only when given |
| CsrBytes.TemplateBytes | internal/csrattrs/csrattrs.go:305-351 | the octets of a template: version 0, then subject, key type and attributes each under its tag, the middle two only if given |
| CsrBytes.AttributesBytes | internal/csrattrs/csrattrs.go:358-380 | the octets of a template's attributes: the type of the one attribute says whether every value is present |
| CsrAttrsProperties.ResponseReadBack | internal/csrattrs/csrattrs.go:150-184 | a strict reader recovers exactly the ordered entries if and only if every identifier can be read back |
| CsrStrictness.StrictReader | internal/csrattrs/csrattrs.go:150-184 | whatever the strict reader reads, with readable identifiers, is byte for byte the encoding of what it read: no explicit default, no non-minimal number, nothing trailing |
| CsrStrictness.ReadsAreUnique | internal/csrattrs/csrattrs.go:150-184 | two responses that read alike are the same bytes |
| CsrStrictness.TemplateCanonical | internal/csrattrs/csrattrs.go:305-380 | a template is read only from its own tree, optional fields in their places |
| CsrAttrsProperties.ExtensionFormsAgree | internal/csrattrs/csrattrs.go:242-295 | with every value present the two ways of writing extensions denote the same, unless an arc is negative |
| CsrAttrsProperties.ExtensionBytesAgree | internal/csrattrs/csrattrs.go:370-378 | and then their bytes are the same, alone and inside the attribute |
| Base64.DecodeEncode | internal/estapi/encoding.go:77-77 | decoding undoes encoding for every byte string |
| Base64.AlphabetExactly | internal/estapi/encoding.go:77-77 | the digit of each value, and back, is the one of table 1 of RFC 4648 |
| Base64.AcceptedExactly | internal/estapi/encoding.go:39-42 | newlines apart, exactly the strings of padded groups over that alphabet are decoded |
| Base64.GroupBits | internal/estapi/encoding.go:77-77 | three octets become four values of six bits, first bits first |
| BodyEncoding.WriteBase64Response | internal/estapi/encoding.go:76-90 | the index loop writes status 200, the content type and the wrapped encoding |
| BodyEncoding.LineShapes | internal/estapi/encoding.go:82-89 | every line but the last has 76 characters, the last 1 to 76; no line for empty input; nothing lost |
| BodyEncoding.WrapLayout | internal/estapi/encoding.go:82-89 | the wrapped body in full: 76 characters to a line, 0d 0a after each line and after the last, short one |
| BodyEncoding.WrappedLengthOf | internal/estapi/encoding.go:82-89 | the wrapped length of n bytes is 4*ceil(n/3) and two per started line |
| BodyEncoding.WrappedFits | internal/estapi/encoding.go:17-23 | it is monotone, and within the cap exactly up to 47889 bytes |
| BodyEncoding.StripWhitespace | internal/estapi/encoding.go:51-63 | the rune loop computes the recursive removal, replacement characters included |
| BodyEncoding.WhitespaceInBody | internal/estapi/encoding.go:51-63 | a space, tab, carriage return or line feed anywhere in a body within the cap makes no difference to the request read |
| BodyEncoding.WhitespaceIgnored | internal/estapi/encoding.go:51-63 | nor to the bytes decoded, whatever the body |
| BodyEncoding.NothingElseStripped | internal/estapi/encoding.go:51-63 | an ASCII string with none of the four is returned as it is |
| BodyEncoding.Utf8Read | internal/estapi/encoding.go:54-60 | the octets of each code point, of one to four octets, are read as that code point |
| BodyEncoding.HighRune | internal/estapi/encoding.go:54-60 | well-formed UTF-8 is written back unchanged, and no ASCII comes of other bytes |
| BodyEncoding.RunesAsBytes | internal/estapi/encoding.go:39-63 | decoding after removal by runes equals decoding after removal by bytes, on every input |
| BodyEncoding.DecodeCsrBody | internal/estapi/encoding.go:30-49 | read errors, the cap, base64 and parsing decide the result in that order |
| BodyEncoding.WrapRoundTrip | internal/estapi/encoding.go:51-90 | what the server writes is unwrapped and decoded to the same bytes |
| BodyEncoding.WrappedRequest | internal/estapi/encoding.go:30-49 | a request wrapped so is taken exactly when its DER has at most 47889 bytes |
| Sorting.SortStrings | internal/estapi/identity.go:57-57 | the array ends sorted byte-wise and a permutation of what it was |
| Sorting.SortedUnique | internal/estapi/identity.go:57-57 | a sorted permutation is unique, so any sorting algorithm gives the same string |
| Sorting.LexLeExactly | internal/estapi/identity.go:57-57 | of two strings a prefix comes first, and otherwise the first character that differs decides |
| Identity.SanSet | internal/estapi/identity.go:43-63 | the loops and the sort compute the joined string of the tagged items |
| Identity.SanStringExample | internal/estapi/identity.go:43-63 | one string in full, with its tags, its order and its newlines |
| Identity.IdentitiesMatch | internal/estapi/identity.go:33-39 | compares common names, then the two strings |
| Identity.SameFamiliesSameString | internal/estapi/identity.go:41-63 | the order of names never matters |
| Identity.SanStringExact | internal/estapi/identity.go:43-63 | without newlines, two strings are equal if and only if the four families are equal as multisets |
| Identity.MatchesExact | internal/estapi/identity.go:28-39 | so the check accepts exactly the same common name and the same four multisets |
| IdentityReadings.DeterminedExactly | internal/estapi/identity.go:43-63 | the string stands for one set of families if and only if there is no DNS name and no email address, or a single name without a newline that parts two items in order; whatever form addresses and URIs print in, as long as it is one line |
| IdentityReadings.AddressesAndUrisExact | internal/estapi/identity.go:28-39 | for a certificate naming only addresses and URIs the check is exact against every request |
| IdentityReadings.TwoNamesReadAsOne | internal/estapi/identity.go:43-63 | any two DNS names, or two email addresses, in order have the string of one name made of both |
| IdentityReadings.NewlineAccepted | internal/estapi/identity.go:33-39 | inputs, one of DNS names and one of email addresses, on which the check accepts different families |
| Identity.RepetitionCounts | internal/estapi/identity.go:41-63 | one name more in any of the four families, even a repeated one, always changes the string |
| Serial.Next | internal/ca/serial.go:20-27 | the serial is the big-endian value of the drawn bytes less the weight of the top bit, below 2^159, and zero only of zero bits |
| Serial.DrawnSerialFits | internal/ca/serial.go:14-27 | below 2^159 is the same as fitting 20 octets of INTEGER, and then the name has 40 digits |
| Serial.PositiveExactly | internal/ca/serial.go:14-27 | the serial is positive if and only if some bit but the top one is drawn set |
| Serial.EverySerialDrawn | internal/ca/serial.go:20-27 | every number below 2^159, zero included, comes of some bytes |
| Serial.SerialHexRead | internal/store/file.go:36-38 | reading a name as hexadecimal gives the serial back, negative ones included |
| Serial.SerialHexExamples | internal/store/file.go:36-38 | the names of zero, of a larger number and of a negative one in full |
| Serial.SerialHexInjective | internal/store/file.go:36-38 | no two serials share a name |
| Serial.HexWidth | internal/store/file.go:19-21 | names have 40 characters exactly between -16^39 and 16^40 |
| Serial.SortsExactly | internal/store/file.go:19-21 | names of all naturals below a bound sort as the numbers do if and only if the bound is at most 16^40 |
| Serial.NamesSortAsNumbers | internal/store/file.go:19-21 | below 16^40 name order is numeric order, pair by pair |
| Serial.WiderNamesSortWrongly | internal/store/file.go:19-21 | a pair at the bound that sorts wrongly |
| Serial.NegativeNamesSortInReverse | internal/store/file.go:19-21 | negative serials sort before all others and in reverse |
| Paths.PathInjective | internal/store/file.go:40-60 | final and temporary names of all kinds and serials are pairwise distinct |
| Paths.FinalNames | internal/store/file.go:40-50 | the three final names: directory, serial in hexadecimal, ending |
| Paths.TempBesideFinal | internal/store/file.go:60-60 | a temporary's name is its final file's whole name followed by .tmp- and the random part |
| AtomicWrite.StepEffect | internal/store/file.go:55-81 | each step touches only the call's own temporary, and the final name only by renaming a file that holds the data whole |
| AtomicWrite.StepCleansUp | internal/store/file.go:65-65 | a call that lets go of its temporary leaves none |
| AtomicWrite.OtherSerialUntouched | internal/store/file.go:40-65 | calls for different serials never touch a common file, the deferred remove included |
| AtomicWrite.SuccessfulTrace | internal/store/file.go:55-81 | a call that succeeds has created, written, closed, set the mode, renamed and called the deferred remove, in this order and once each but for writes |
| StoreMachine.StepKeeps | internal/store/file.go:55-81 | every step of every interleaving, and a crash, keeps ownership, contents and finals |
| StoreMachine.NothingPartial | internal/store/file.go:52-54 | in every reachable state a final name holds, whole, the data of the call that renamed there last, or what it held at the start if none has |
| StoreMachine.NothingElseChanges | internal/store/file.go:55-81 | only final names of calls and temporaries created in the run ever change |
| StoreMachine.NothingLeftBehind | internal/store/file.go:65-65 | when all calls have returned and no remove has failed, no temporary of the run remains |
| StoreMachine.FinishedStays | internal/store/file.go:77-80 | with distinct targets, a renamed call's data is what its name holds, whatever others do |
| StoreMachine.DistinctIsFresh | internal/store/file.go:60-60 | with distinct targets temporary names cannot repeat, so exclusive creation is enough |
| FileStore.Store.WriteFileAtomic | internal/store/file.go:55-81 | exactly when it succeeds, the new files either way, and its run as steps of the machine |
| FileStore.Store.PutCsr | internal/store/file.go:84-86 | the request's file and nothing of other serials |
| FileStore.Store.PutCertificate | internal/store/file.go:90-99 | certificate then metadata, the latter only after the former and if it marshals |
| FileStore.Store.GetCertificate | internal/store/file.go:103-113 | what the certificate's file parses to, or an error |
| FileStore.PutThenGet | internal/store/file.go:88-113 | what PutCertificate stored is read back after any number of stores under other serials |
| Enrolment.StepKeeps | internal/estapi/handlers.go:39-118 | every step keeps each request's progress tied to its calls and files, and is a step of the store |
| EnrolmentProperties.StoredForGood | internal/estapi/handlers.go:82-118 | once a request has its 200 response the three files hold its request, certificate and metadata, and do so in every later state of every run |
| EnrolmentProperties.ResponsesAreEarned | internal/estapi/handlers.go:39-118 | a 200 response is given only to a request with a client certificate and a readable body, of equal common name and joined string if it is a renewal, and with a certificate the CA issued for it; the metadata names the peer |
| EnrolmentProperties.RefusalsAreExact | internal/estapi/handlers.go:39-92 | in every run a refusal is 401 if and only if there is no client certificate, 403 if and only if it is a renewal whose request differs from the certificate in common name or joined string, 400 if and only if the body gives no request or the CA found the signature bad, and 500 otherwise |
| EnrolmentProperties.RefusedEarly | internal/estapi/handlers.go:39-77 | what lacks a certificate or a readable body, or is a renewal of another name, never reaches CA or store, and its status says which |
| Admission.CaAskedExactly | internal/estapi/handlers.go:39-77 | of all requests past the early steps the CA has been asked about exactly those with a certificate, a readable body and, for a renewal only, the same names |
| Admission.FirstEnrolmentAsked | internal/estapi/handlers.go:39-53 | a first enrolment with a certificate and a readable body comes to the CA whatever names it asks for, and is never refused before |
| Admission.CanReachCa | internal/estapi/handlers.go:39-77 | from every reachable state such a request can go on, by its own steps, to where the CA is asked about the request it sent |
| EnrolmentProperties.NothingPartial | internal/store/file.go:19-22 | every store file is as at the start or one document of one request, crash states included |
| EnrolmentProperties.StoredInOrder | internal/estapi/handlers.go:99-108 | where a certificate has been put its request is in place, and where metadata has been put both are, all of one request, in crash states too |
| EnrolmentProperties.NothingElseChanges | internal/estapi/handlers.go:99-108 | only names of issued serials ever change |
| EnrolmentProperties.NothingLeftBehind | internal/store/file.go:65-65 | when all requests are answered and no remove has failed, no temporary remains |
| EnrolmentProperties.RunsAreStoreRuns | internal/estapi/handlers.go:99-108 | seen from the store, every run of requests is a run of write calls |
| EnrolmentProperties.AlwaysAStep | internal/estapi/handlers.go:82-118 | no live request is ever stuck |
| EnrolmentProgress.EveryRequestCanFinish | internal/estapi/handlers.go:39-118 | from every reachable state each live request comes to an answer by steps of its own, and to 200 if a certificate has been issued, no write has gone wrong, and metadata and reply can be written |
| EnrolmentProgress.CallOnward | internal/store/file.go:55-81 | every call of writeFileAtomic under way can go on, nearer to its return |
| EnrolmentProperties.ReplyExactly | internal/estapi/handlers.go:110-115 | a reply can be written if and only if the certificate has between 1 and 2^32 - 51 octets |
| EnrolmentProperties.ClientReads | internal/estapi/handlers.go:110-117 | decoding the body of a 200 response gives the very certificate the store keeps, if that has at most 2^32 - 56 octets |
| Sequential.LiftCall | internal/store/file.go:55-81 | a call run by itself is a run of the enrolment machine |
| Sequential.IssuedRun | internal/estapi/handlers.go:82-118 | issuing, the three writes and the reply, in the code's order, are a run of the machine |
| Handlers.Admit | internal/estapi/handlers.go:39-76 | 401 without a certificate, 400 without a readable request, 403 for a renewal that differs in common name or joined string; everything else, first enrolments of any name included, is let through unanswered |
| Handlers.HandleEnroll | internal/estapi/handlers.go:39-77 | the same three refusals with nothing written, and otherwise the status for every answer of the CA and every fault, the files and body on 200; and the run of the machine it is |
| Handlers.HandleEnrollLocally | internal/estapi/handlers.go:39-118 | the same over the in-process CA: what is issued has the names of the request, and those of the peer for a renewal |
| Handlers.IssueAndRespond | internal/estapi/handlers.go:82-118 | 400 exactly for a bad signature, 200 exactly when all three writes succeed, the metadata marshals and the certificate is neither empty nor over-long, 500 otherwise; on 200 the three files hold their documents |
| Handlers.Persist | internal/estapi/handlers.go:99-108 | stops at the first failing write; on success all three files hold their documents |
| LocalCa.IssueCertificate | internal/ca/local.go:109-157 | exactly when it issues, and from what: a template that is no CA's, with the request's names, the two dates and a serial of at most 20 octets |
| LocalCa.IssuedFromTemplate | internal/ca/local.go:130-157 | every certificate this CA may answer with comes of such a template, and of a request whose signature verifies |
| LocalCa.IssuedCopies | internal/ca/local.go:130-156 | whatever this CA may answer with has the request's identity, if creation and parsing keep the template's fields |
| Sequential.LocalAnswerFits | internal/ca/local.go:109-157 | an answer of this CA is one the machine allows, but for the newness of its serial |
| Reenrolment.RenewalKeeps | internal/estapi/handlers.go:58-77 | an answered renewal through the in-process CA has the identity of the certificate that authenticated it |
| Reenrolment.ChainKeepsIdentity | internal/ca/local.go:130-157 | along any chain of renewals through the in-process CA, common name and joined string are the first certificate's, if creation and parsing keep the copied fields |
| Reenrolment.ChainKeepsFamilies | internal/ca/local.go:130-157 | and so are the four families, if the two ends are free of newlines |
| OpensslCa.DoKeeps | internal/ca/openssl/openssl.go:139-156 | every step under the mutex keeps the serial file ahead of what was issued |
| OpensslCa.OneRunAtATime | internal/ca/openssl/openssl.go:36-40 | at most one run of the CA command is active |
| OpensslCa.SerialsIncrease | internal/ca/openssl/openssl.go:139-156 | successful runs issue strictly increasing serials, each recorded |
| OpensslCa.NoSerialSkipped | internal/ca/openssl/openssl.go:139-156 | the serial file goes past no serial that is not in the index, whatever fails or dies |
| OpensslCa.CertificatesDiffer | internal/ca/openssl/openssl.go:139-156 | two calls never hold certificates with the same serial |
| OpensslEnrolment.TakenIsFresh | internal/ca/openssl/openssl.go:36-40 | a certificate taken from this backend has a serial no request has had |
| OpensslEnrolment.RunsAreEnrolmentRuns | internal/ca/openssl/openssl.go:85-137 | every joint run is an enrolment run with distinct serials |
| OpensslEnrolment.StoredForGood | internal/estapi/handlers.go:82-118 | over this backend what was answered is stored for good, with no assumption on serials |

## Left out

- Parsing and creating X.509 certificates, signatures, hashing: functions passed in, with the facts used about them named (`X509.KeepsRaw`, `LocalCa.Preserves`). A subject is its common name; addresses and URIs are their printed forms.
- The libraries underneath (cryptobyte, encoding/asn1, encoding/base64, encoding/hex, strconv, sort, UTF-8 ranges) are not part of the repository; the operations used are modelled by their behaviour, including their limits and what they accept.
- TLS and certificate-chain verification: the peer certificate is an optional field of the request.
- The EJBCA backend, configuration loading, routing, logging and start-up.
- `handleCACerts` and `handleCSRAttrs`: they only join an encoder and a response writer that are modelled.
- Distinctness of randomly drawn serials: a hypothesis on runs (`Enrolment.NewSerial`), discharged for the openssl backend.
- Power loss: the code does not sync, so a crash is the death of the process and completed file operations stay.
- The directory is made and the temporary created in one step; a failing write and the close that follows it are one step; paths are joined below a root already in clean form.
- Failing writes to the response, which the code ignores; the text of a refusal is an opaque byte string.
- The JSON layout of the metadata: an optional byte string per record.
- Key usages, the other certificate extensions and key-file formats.
- OpensslCa.DoKeeps: a run of the CA command is taken as reading the serial, recording, writing the next serial; it is taken to die with the process, and nobody else writes the serial file.
- OpensslCa.CertificatesDiffer: the backend's own temporary files and its check of the result are folded into one step that may fail.
