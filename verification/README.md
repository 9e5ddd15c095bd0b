# EUWallet: models and proofs

The wallet decides what to sign, what to show and what to believe by reading and writing byte strings.
This project models the parts where that is hardest and proves what they promise, for every input and every run.

| files | what they model |
|---|---|
| `Bytes`, `Utf8`, `KeyedSort` | big-endian numbers, UTF-8, stable sort with first-wins dedup |
| `Cbor`, `CborTheorems`, `CborOrder`, `CborCodec` | the canonical CBOR codec (RFC 8949 section 4.2.1) as functions, its laws, its key order on the bytes, and the codec as it runs over a buffer and a shrinking rest |
| `JsonGrammar`, `JsonScan`, `JsonSound`, `JsonComplete`, `JsonMeaning`, `JsonScanner` | the bounded JSON boundary scanner: RFC 8259 trees, the scan, soundness, completeness, what names mean, and the cursor that runs it |
| `Proximity`, `ProximityTheorems`, `ProximityRuns`, `ProximityWire` | the ISO/IEC 18013-5 presentation machine, its reference model, what every run emits and when, and the CBOR it emits |
| `Cose`, `CoseTheorems`, `CoseHeaders`, `CoseAcceptance`, `CoseParse` | COSE_Sign1: headers, signing, verification, the wire |
| `HybridTypes`, `StrictMap`, `StrictMapTheorems`, `StrictCanonical`, `Envelope`, `EnvelopeTheorems`, `EnvelopeCodec` | key, signature and credential-wrapper envelopes of the hybrid post-quantum profile |
| `Framing`, `Tbs`, `TbsTheorems`, `TbsCodec`, `AtomicVerify` | the message both component signatures cover, and the atomic verifier |
| `WalletExport`, `ExportCodec`, `KeyAgreement`, `ProviderPolicy`, `Rollout` | signed exports, hybrid key agreement, the provider allow-list, rollout control |
| `JsonPointer`, `JsonPointerTheorems` | the disclosure picker's JSON Pointer listing (RFC 6901) |

Conventions:

- Code that computes a value is a function. Code that appends to a buffer, moves a cursor or loops over locals is a method or a class, proved equal to a function; the laws are proved about the function.
- Signatures, key exchange, key encapsulation, hashing and key derivation are parameters. A theorem that needs them to be correct says so in its `requires`; none is assumed.
- Randomness, clocks and the verdicts of the platform (reader key on curve, transcript bound) are parameters of each step.
- Text is kept as its UTF-8 bytes, except for provider origins and JSON Pointers, which are strings of Unicode scalars.
- A length written into a message is below 2^64 (2^32 where a 32-bit prefix is used and the code does not test it); a Rust vector on a 64-bit target cannot be longer.

Where code and comments disagree, the model follows the code:

- `crates/cose/src/lib.rs`, lines 176-177 and 345-346, say that retained private labels are not re-emitted. `to_value`, lines 488-498, re-emits them, and the survival of parsed messages depends on it.
- `crates/cose/src/lib.rs`, line 488, calls the re-emitted labels all negative. That holds of parsed messages. A caller of `sign` may pass others; `CoseAcceptance` shows one that is refused on arrival and states exactly which are accepted.

One observation that is a theorem here: three defensive checks can never reject. They are the re-encoding guard of the atomic verifier, the closing comparison of the export decoder, and the `Null` fallback when the session transcript is embedded.

## Model

| member | source | states |
|---|---|---|
| `Bytes.ToFromBe` | crates/cose/src/cbor.rs:94-111 | Big-endian bytes and the number they denote determine each other |
| `Bytes.LessIsLexicographic` | crates/cose/src/cbor.rs:272-278 | The recursive comparison is bytewise lexicographic order: one is a proper prefix of the other, or the first byte in which they differ is smaller |
| `Utf8.FirstScalar` | crates/oid4vci/src/bounded_json.rs:365-372 | A scalar at the front is complete and well formed on its own bytes, and the input is valid exactly when what follows the scalar is |
| `Utf8.CodePointOfEncode` | crates/oid4vci/src/bounded_json.rs:239-256 | The scalar computed independently from the bits of an encoding is the scalar encoded |
| `Utf8.EncodeOfCodePoint` | crates/oid4vci/src/bounded_json.rs:219-232 | The other way: every well-formed sequence is the encoding of its scalar |
| `Utf8.Utf8Exact` | crates/oid4vci/src/bounded_json.rs:66-68 | A byte string is valid UTF-8 exactly when it is the encoding of some sequence of scalars |
| `KeyedSort.CanonicalCorrect` | crates/cose/src/cbor.rs:188-202 | The encoder's stable sort and dedup gives strictly ascending keys and keeps, for each key, its first entry |
| `KeyedSort.CanonicalIgnoresOrder` | crates/cose/src/cbor.rs:188-202 | With distinct keys, entry lists with the same members canonicalise to the same list |
| `KeyedSort.AscendingUnique` | crates/cose/src/cbor.rs:188-202 | Two ascending listings with the same lookups are the same list |
| `CborTheorems.CanonicalBijection` | crates/cose/src/cbor.rs:164-299 | For every byte string and value: `from_canonical_slice` returns the value if and only if the bytes are its canonical encoding and the value is normal and within the depth limit; accepted strings and normal values are in bijection |
| `CborTheorems.RoundTrip` | crates/cose/src/cbor.rs:164-299 | Every value, encoded and followed by any bytes, decodes at any depth to its normal form (maps sorted by encoded key, first duplicate kept) and leaves the bytes that followed; past the limit the only error is TooDeep |
| `CborTheorems.DecodeSound` | crates/cose/src/cbor.rs:226-299 | Whatever the decoder accepts, at any depth, it consumed exactly the canonical encoding of what it returned, and the rest is the untouched suffix |
| `CborTheorems.DecodedIsNormal` | crates/cose/src/cbor.rs:226-299 | A decoded value is its own normal form |
| `CborTheorems.PrefixFree` | crates/cose/src/cbor.rs:164-211 | Two encodings that agree up to what follows them encode the same normal form and are followed by the same bytes, with no depth bound |
| `CborTheorems.EncodeNorm` | crates/cose/src/cbor.rs:164-211 | Normalising is a projection that changes nothing on the wire |
| `CborTheorems.EncodeEqualIff` | crates/cose/src/cbor.rs:164-211 | Encodings are equal exactly when normal forms are |
| `CborTheorems.FromCanonicalOfEncode` | crates/cose/src/cbor.rs:216-223 | Encoding then decoding gives the normal form, or TooDeep when the normal form is too deep |
| `CborTheorems.MapOrderIrrelevant` | crates/cose/src/cbor.rs:188-202 | With distinct encoded keys the order in which a map was built does not reach the wire |
| `CborTheorems.HeadRoundTrip` | crates/cose/src/cbor.rs:94-156 | Every 64-bit argument written in shortest form reads back, whatever follows |
| `CborTheorems.HeadSound` | crates/cose/src/cbor.rs:115-156 | An accepted head is the shortest form of what it says: longer forms, indefinite lengths and reserved codes are refused |
| `CborTheorems.NormalInjective` | crates/cose/src/cbor.rs:164-211 | Distinct normal values have distinct encodings |
| `CborOrder.AcceptedMapAscends` | crates/cose/src/cbor.rs:264-285 | On the wire: in every map the decoder accepts, at any depth budget, each encoded key comes before the next in bytewise order |
| `CborOrder.EmittedMapAscends` | crates/cose/src/cbor.rs:188-202 | The same of the entries the encoder writes, from pairs in any order and with repetitions |
| `CborOrder.KeyOrderExact` | crates/cose/src/cbor.rs:272-278 | Which of the three verdicts two neighbouring keys get |
| `CborOrder.HeadErrors` | crates/cose/src/cbor.rs:115-156 | The error for a head is fixed by its additional information and by how many argument bytes follow |
| `CborCodec.WriteHead` | crates/cose/src/cbor.rs:94-111 | Appends the shortest-form head to the output buffer |
| `CborCodec.EncodeInto` | crates/cose/src/cbor.rs:170-211 | Appends the canonical encoding of the value to the buffer, nothing else |
| `CborCodec.ToCanonical` | crates/cose/src/cbor.rs:164-168 | Returns the canonical encoding |
| `CborCodec.EncodeArray` | crates/cose/src/cbor.rs:182-187 | The item loop writes head and items in order |
| `CborCodec.EncodeMap` | crates/cose/src/cbor.rs:188-202 | Encoding pairs, sorting, removing duplicates and writing them is the canonical map encoding |
| `CborCodec.DecodeValue` | crates/cose/src/cbor.rs:226-299 | The decoder, error for error, is the decoding function; remaining length decreases although counts are 64-bit |
| `CborCodec.DecodeContent` | crates/cose/src/cbor.rs:232-299 | The content after a head, for each major type |
| `CborCodec.DecodeArray` | crates/cose/src/cbor.rs:254-263 | The item loop, with its growing list and shrinking rest |
| `CborCodec.DecodeMap` | crates/cose/src/cbor.rs:264-285 | The pair loop with its previous key: out-of-order and duplicate keys are refused at the pair that breaks the order |
| `JsonGrammar.SurrogateScalar` | crates/oid4vci/src/bounded_json.rs:239-256 | A high and a low surrogate always combine to a legal scalar value above the basic plane |
| `JsonSound.ValueSound` | crates/oid4vci/src/bounded_json.rs:104-137 | Whatever is read as a value is the text of an admissible tree followed by the rest |
| `JsonSound.StringSound` | crates/oid4vci/src/bounded_json.rs:196-237 | A string accepted by the scanner is a quoted run of admissible characters whose decoded length is within the limit |
| `JsonSound.NumberSound` | crates/oid4vci/src/bounded_json.rs:270-308 | A number accepted by the scanner has the RFC 8259 shape: no leading zero, digits after point and exponent |
| `JsonSound.MembersSound` | crates/oid4vci/src/bounded_json.rs:139-168 | Members accepted one by one have names different, after decoding, from every earlier name |
| `JsonComplete.ScannerExact` | crates/oid4vci/src/bounded_json.rs:52-89 | The scanner phase succeeds if and only if the limits are admissible, the input is within the size limit and valid UTF-8, and it is one white-space-padded RFC 8259 object within every depth, entry and decoded-length limit, with paired surrogates and member names distinct after escape decoding at every level |
| `JsonComplete.DocumentComplete` | crates/oid4vci/src/bounded_json.rs:52-137 | Every padded admissible value is scanned as exactly its own tree; one that is not an object is refused as NonObjectRoot |
| `JsonComplete.GrammarUnambiguous` | crates/oid4vci/src/bounded_json.rs:104-321 | Two readings of one text as padding, value, padding are the same reading |
| `JsonComplete.ValueComplete` | crates/oid4vci/src/bounded_json.rs:104-137 | Every admissible value, followed by anything that may follow it, is read whole |
| `JsonMeaning.HexDigitExact` | crates/oid4vci/src/bounded_json.rs:374-381 | A byte has hexadecimal value n exactly when it is the n-th of the sixteen digits in lower or upper case |
| `JsonMeaning.HexValueExact` | crates/oid4vci/src/bounded_json.rs:258-268 | Four digits have the value of the four in base 16 |
| `JsonMeaning.ShortEscapeExact` | crates/oid4vci/src/bounded_json.rs:196-237 | The eight two-character escapes and what each stands for |
| `JsonMeaning.LexicalTables` | crates/oid4vci/src/bounded_json.rs:331-335 | Which bytes are white space and which are digits |
| `JsonMeaning.WordExact` | crates/oid4vci/src/bounded_json.rs:310-321 | The spellings of the three literals |
| `JsonMeaning.SurrogateExact` | crates/oid4vci/src/bounded_json.rs:239-256 | The scalar of a surrogate pair is the one whose UTF-16 form the pair is |
| `JsonMeaning.StringMeaning` | crates/oid4vci/src/bounded_json.rs:196-256 | The decoded bytes of a literal are the UTF-8 of the scalars its characters and escapes stand for |
| `JsonMeaning.SameNameIff` | crates/oid4vci/src/bounded_json.rs:139-168 | Two names decode to the same bytes exactly when they stand for the same scalars, however they are escaped |
| `JsonMeaning.DistinctNamesIff` | crates/oid4vci/src/bounded_json.rs:139-168 | The duplicate test on decoded bytes is the duplicate test on meanings |
| `JsonScanner.MultiByteAlways` | crates/oid4vci/src/bounded_json.rs:196-237 | On valid UTF-8 a multi-byte scalar is complete and well formed at every token position: none of the three failure branches can be taken |
| `JsonScanner.Scanner.SkipWhitespace` | crates/oid4vci/src/bounded_json.rs:331-335 | Moves the cursor over the longest white-space run |
| `JsonScanner.Scanner.ConsumeIf` | crates/oid4vci/src/bounded_json.rs:347-354 | Advances exactly when the next byte is the expected one |
| `JsonScanner.Scanner.ParseHexQuad` | crates/oid4vci/src/bounded_json.rs:258-268 | Reads four hex digits to the 16-bit value they denote; the accumulation cannot overflow |
| `JsonScanner.Scanner.ParseUnicodeEscape` | crates/oid4vci/src/bounded_json.rs:239-256 | Reads a basic-plane escape or a surrogate pair; a lone surrogate is refused |
| `JsonScanner.Scanner.ParseChar` | crates/oid4vci/src/bounded_json.rs:196-237 | One character of a string, appended decoded, with the cursor left on a scalar boundary |
| `JsonScanner.Scanner.ParseString` | crates/oid4vci/src/bounded_json.rs:196-237 | Returns the decoded text the scan specifies, or its error |
| `JsonScanner.Scanner.ParseNumber` | crates/oid4vci/src/bounded_json.rs:270-308 | Leaves the cursor where the number ends |
| `JsonScanner.Scanner.ConsumeLiteral` | crates/oid4vci/src/bounded_json.rs:310-321 | Accepts exactly the expected word |
| `JsonScanner.Scanner.ParseValue` | crates/oid4vci/src/bounded_json.rs:104-137 | Verdict, remaining input and error are those of the specified scan |
| `JsonScanner.Scanner.ParseObject` | crates/oid4vci/src/bounded_json.rs:139-168 | The object loop with its name set and entry count |
| `JsonScanner.Scanner.ParseMembers` | crates/oid4vci/src/bounded_json.rs:145-167 | Members until the closing brace |
| `JsonScanner.Scanner.ParseArray` | crates/oid4vci/src/bounded_json.rs:170-194 | The array loop with its entry count |
| `JsonScanner.ScanInput` | crates/oid4vci/src/bounded_json.rs:52-89 | The whole scanner as it runs accepts exactly the bounded objects and otherwise reports the specified error |
| `ProximityTheorems.EmittedAtMostOnce` | crates/iso18013-5/src/lib.rs:126-205 | In every run from Idle, with any environment at each step, there is at most one engagement, one signing request and one response: never in two steps, and no step emits more than one thing |
| `ProximityTheorems.NoResponseWithoutConsentedSession` | crates/iso18013-5/src/lib.rs:126-205 | A response is preceded, in order, by engagement, a reader establishment that passed all three guards, consent and a device signature, and carries the transcript of that engagement and that reader key with that signature |
| `ProximityTheorems.SigningRequestJustified` | crates/iso18013-5/src/lib.rs:169-181 | A signing request is preceded by an engagement and a guarded establishment, and asks for exactly their transcript to be signed |
| `ProximityTheorems.RankMonotone` | crates/iso18013-5/src/lib.rs:126-205 | No run goes back to an earlier phase |
| `ProximityTheorems.StepRefines` | crates/iso18013-5/src/lib.rs:366-404 | One production step is one step of the reference model, for all states, inputs and environments |
| `ProximityTheorems.RunRefines` | crates/iso18013-5/src/lib.rs:326-408 | Every run of the machine is a run of the model, state by state |
| `ProximityTheorems.ModelSafety` | crates/iso18013-5/src/lib.rs:366-408 | Every reachable model context that is signing or has responded is session-bound and consented |
| `ProximityTheorems.RunModel` | crates/iso18013-5/src/lib.rs:406-408 | The fold over events, and its safety |
| `ProximityTheorems.EngagementInjective` | crates/iso18013-5/src/lib.rs:222-246 | The engagement bytes determine device key and BLE UUID |
| `ProximityTheorems.TranscriptEmbedded` | crates/iso18013-5/src/lib.rs:288-309 | The transcript always decodes when it is embedded, so the Null fallback is dead, and stands there byte for byte |
| `ProximityTheorems.TranscriptInjective` | crates/iso18013-5/src/lib.rs:260-267 | The transcript determines engagement and reader key |
| `ProximityTheorems.SigningInputBinds` | crates/iso18013-5/src/lib.rs:222-309 | The signing input determines device key, BLE UUID and reader key |
| `ProximityTheorems.EqualRequestsSameSession` | crates/iso18013-5/src/lib.rs:126-309 | Across any two runs, two signing requests over the same bytes come from consented sessions with the same device key, UUID and reader key |
| `ProximityRuns.IdleIff` | crates/iso18013-5/src/lib.rs:126-205 | Over every run: the machine is idle exactly when nothing has started or terminated it |
| `ProximityRuns.EngagedIff` | crates/iso18013-5/src/lib.rs:126-205 | The machine is engaged with an engagement exactly when that start was followed only by inputs that leave it there |
| `ProximityRuns.SessionIff` | crates/iso18013-5/src/lib.rs:126-205 | A session on a transcript exists exactly when a start and an accepted establishment of those values came, with nothing between or after that would end it |
| `ProximityRuns.EngagementIff` | crates/iso18013-5/src/lib.rs:126-205 | An engagement is emitted exactly by a start in an untouched run |
| `ProximityRuns.ConsentPromptIff` | crates/iso18013-5/src/lib.rs:126-205 | Consent is asked for exactly by an accepted establishment of a live engagement |
| `ProximityRuns.SigningRequestIff` | crates/iso18013-5/src/lib.rs:126-205 | A signature is requested exactly on consent to a live session, over that session's transcript and under the key named then |
| `ProximityRuns.ResponseIff` | crates/iso18013-5/src/lib.rs:126-205 | A response is emitted exactly when start, accepted establishment, consent and signature came in this order with nothing that would end the run between them; it carries that transcript and that signature |
| `ProximityRuns.SignatureAnswered` | crates/iso18013-5/src/lib.rs:126-205 | Such a history never goes unanswered: the step emits exactly that one response, and from it a CBOR reader recovers transcript and signature |
| `ProximityRuns.TerminationIff` | crates/iso18013-5/src/lib.rs:126-205 | A termination is emitted exactly on reader termination and on consent declined in a live session |
| `ProximityRuns.OneOutput` | crates/iso18013-5/src/lib.rs:126-205 | No step emits more than one output |
| `ProximityRuns.AbortIff` | crates/iso18013-5/src/lib.rs:126-205 | The run aborts with a reason exactly where the first failing guard, read off the inputs, is the one for that reason |
| `ProximityWire.EngagementReadsBack` | crates/iso18013-5/src/lib.rs:207-246 | A canonical CBOR reader finds version, cipher suite with embedded key, and one BLE method with the UUID, each under its label |
| `ProximityWire.TranscriptReadsBack` | crates/iso18013-5/src/lib.rs:248-267 | A reader finds embedded engagement, embedded reader key and a null handover, in this order |
| `ProximityWire.SigningInputReadsBack` | crates/iso18013-5/src/lib.rs:279-309 | A reader finds the tag-24 wrapping of label, transcript as an item, document type and the embedded empty map |
| `ProximityWire.ResponseReadsBack` | crates/iso18013-5/src/lib.rs:311-319 | A reader finds the response label, the transcript and the signature |
| `CoseTheorems.ParsedMessageSurvives` | crates/cose/src/lib.rs:446-510 | Any COSE_Sign1 parsed from wire bytes survives `to_value`, encode, decode and `from_value` unchanged, private labels and their order included |
| `CoseTheorems.ParsedIsRetained` | crates/cose/src/lib.rs:323-365 | What parsing keeps of an unprotected header is bounded and in canonical order |
| `CoseTheorems.RetainedRoundTrip` | crates/cose/src/lib.rs:323-365 | A retained unprotected header is emitted as a normal map and parsed back unchanged |
| `CoseTheorems.SigStructureInjective` | crates/cose/src/lib.rs:211-219 | The signed bytes determine protected header, external data and payload |
| `CoseTheorems.SigStructureReadsBack` | crates/cose/src/lib.rs:205-219 | A reader finds the context string, protected header, external data and payload, in this order |
| `CoseTheorems.ProtectedHeaderParses` | crates/cose/src/lib.rs:221-234 | The emitted protected header parses to its algorithm and nothing else |
| `CoseTheorems.SignSucceedsIff` | crates/cose/src/lib.rs:384-403 | Signing succeeds exactly when the chain offered is within bounds and the signer signs the Sig_structure |
| `CoseTheorems.SignedMessageVerifies` | crates/cose/src/lib.rs:382-510 | For a correct signer, sign, encode, decode, parse and verify succeeds for every payload and external data, with key identifier and certificate chain as sent, whatever negative private labels travel along |
| `CoseTheorems.NormKeepsHeaderValue` | crates/cose/src/lib.rs:253-257 | Canonical encoding of a header map changes no header value that is looked up |
| `CoseTheorems.DistinctLabelsArrive` | crates/cose/src/lib.rs:446-510 | With distinct negative private labels within bounds the receiver gets the very message sent, its private labels sorted |
| `CoseTheorems.SortedSameLabels` | crates/cose/src/lib.rs:488-498 | Sorting distinct labels loses none and invents none |
| `CoseHeaders.ChainExact` | crates/cose/src/lib.rs:109-164 | A value is read as a chain exactly when it is that chain's own form within all four numeric limits |
| `CoseHeaders.IntegerLabelExact` | crates/cose/src/lib.rs:243-251 | A CBOR value is a label exactly when it is the integer of that value in the signed 64-bit range |
| `CoseHeaders.ProtectedIff` | crates/cose/src/lib.rs:272-321 | Bytes parse to a protected header exactly when they are canonical, labels are unique, every critical label is 1, 4 or 33, present and listed once, and the three header values are the ones returned |
| `CoseHeaders.UnknownCriticalRefused` | crates/cose/src/lib.rs:280-305 | The first critical label that is not implemented is reported with its number |
| `CoseHeaders.UnprotectedIff` | crates/cose/src/lib.rs:323-365 | Exactly which unprotected maps are read, and as what |
| `CoseHeaders.FromValueIff` | crates/cose/src/lib.rs:446-475 | Exactly which CBOR values are COSE_Sign1 messages, headers included |
| `CoseHeaders.VerifyIff` | crates/cose/src/lib.rs:407-428 | Verification succeeds exactly when the protected header is acceptable, names the expected algorithm, one payload is given, and the signature verifies over it |
| `CoseHeaders.DetachedIsAttached` | crates/cose/src/lib.rs:407-428 | A detached payload is verified as the same payload attached |
| `CoseAcceptance.SignedMessageAcceptedIff` | crates/cose/src/lib.rs:382-510 | For any private labels, negative or not: a signed message is received and verifies if and only if no private entry poses as algorithm, `crit` or, when no chain is sent, as a certificate of refused size; otherwise it is refused as a malformed header |
| `CoseAcceptance.PosingAsAlgorithmIsRefused` | crates/cose/src/lib.rs:480-500 | A concrete header that is signed and then refused: a private entry labelled 1 |
| `CoseAcceptance.HeaderAcceptedIff` | crates/cose/src/lib.rs:323-365 | The receiving parser accepts the canonicalised unprotected map exactly under that condition |
| `CoseAcceptance.AcceptedWasSigned` | crates/cose/src/lib.rs:407-428 | If the verifier accepts only signed Sig_structure bytes, an accepted message's protected header, external data and payload were signed as they stand |
| `CoseParse.ReadChain` | crates/cose/src/lib.rs:109-164 | The certificate loop with its running total accepts exactly the bounded chains |
| `CoseParse.ReadPrivateLabels` | crates/cose/src/lib.rs:347-359 | The loop keeps the first private-use byte-string entries up to the cap, in order |
| `CoseParse.ReadCritical` | crates/cose/src/lib.rs:280-305 | The critical-label loop with its seen list reports the first offending label |
| `CoseParse.CriticalAcceptedIff` | crates/cose/src/lib.rs:280-305 | A critical list is accepted exactly when every entry is an implemented label, present in the header and listed once |
| `HybridTypes.PurposeRoundTrip` | crates/hybrid-pq/src/tbs.rs:16-50 | Purposes and their identifiers are in bijection |
| `HybridTypes.NewPublicKey` | crates/hybrid-pq/src/lib.rs:195-221 | Succeeds exactly on components of the fixed sizes with an uncompressed-point marker, and otherwise names the first malformed component |
| `HybridTypes.NewSignature` | crates/hybrid-pq/src/lib.rs:244-265 | Succeeds exactly on components of the fixed sizes, and otherwise names the first malformed one |
| `EnvelopeTheorems.PublicKeyExact` | crates/hybrid-pq/src/envelope.rs:70-94 | Decoding accepts exactly the encodings of well-formed public keys and returns the key |
| `EnvelopeTheorems.SignatureExact` | crates/hybrid-pq/src/envelope.rs:96-121 | Decoding accepts exactly the encodings of well-formed signature envelopes and returns purpose and signature |
| `EnvelopeTheorems.WrapperExact` | crates/hybrid-pq/src/wrapper.rs:167-336 | Decoding accepts exactly the encodings of constructor-built wrappers and returns the wrapper |
| `EnvelopeTheorems.NewWrapperExact` | crates/hybrid-pq/src/wrapper.rs:65-110 | The constructor accepts exactly the wrappers with a wrapper purpose, bounded non-empty fields, a generation and a committed payload within its cap |
| `EnvelopeTheorems.KeyLength` | crates/hybrid-pq/src/envelope.rs:70-82 | An encoded key stays within the envelope size cap |
| `EnvelopeTheorems.SignatureLength` | crates/hybrid-pq/src/envelope.rs:96-110 | An encoded signature stays within the envelope size cap |
| `EnvelopeTheorems.WrapperLength` | crates/hybrid-pq/src/wrapper.rs:167-203 | An encoded wrapper stays within its size cap |
| `EnvelopeTheorems.FormatsDisjoint` | crates/hybrid-pq/src/envelope.rs:84-121 | No byte string is accepted by two of the three decoders, although they share a magic prefix |
| `EnvelopeTheorems.WrapperReadsBack` | crates/hybrid-pq/src/wrapper.rs:307-336 | Encoding a wrapper with admissible fields and decoding it gives the wrapper, or the size error exactly when its committed payload is over 4096 bytes |
| `StrictMapTheorems.DocumentExact` | crates/hybrid-pq/src/envelope.rs:131-197 | The strict map reader accepts exactly the written maps of admissible fields within the size limit |
| `StrictMapTheorems.FieldSound` | crates/hybrid-pq/src/wrapper.rs:242-305 | A field that was read is admissible under its key and its bytes are the ones the writer would produce |
| `StrictMapTheorems.FieldComplete` | crates/hybrid-pq/src/wrapper.rs:242-305 | Every admissible field reads back, whatever follows |
| `StrictCanonical.AcceptedIsCanonicalCbor` | crates/hybrid-pq/src/envelope.rs:131-197 | Whatever the strict reader accepts is, past the magic prefix, one canonical CBOR map with the same keys and values, as the general decoder reads it |
| `StrictCanonical.CommittedPayloadIsCanonical` | crates/hybrid-pq/src/wrapper.rs:151-165 | The committed payload is the canonical encoding of the map from 1 to the payload and from 2 to the disclosure list |
| `EnvelopeCodec.Decoder.ReadHead` | crates/hybrid-pq/src/envelope.rs:262-304 | Reads one shortest-form head, or reports the specified error |
| `EnvelopeCodec.Decoder.TakeArray` | crates/hybrid-pq/src/envelope.rs:306-317 | Takes exactly n bytes, or reports truncation and stays |
| `EnvelopeCodec.Decoder.ReadUint` | crates/hybrid-pq/src/envelope.rs:220-226 | Reads an unsigned integer, refusing other types |
| `EnvelopeCodec.Decoder.ReadString` | crates/hybrid-pq/src/envelope.rs:237-260 | Reads a bounded string of the expected type |
| `EnvelopeCodec.Decoder.ReadText` | crates/hybrid-pq/src/envelope.rs:228-231 | Reads bounded text and refuses invalid UTF-8 |
| `EnvelopeCodec.Decoder.ReadBlobs` | crates/hybrid-pq/src/wrapper.rs:273-287 | The disclosure loop reads as many non-empty byte strings as the head announces |
| `EnvelopeCodec.Decoder.ReadKeyId` | crates/hybrid-pq/src/wrapper.rs:385-393 | Reads a non-empty bounded key identifier |
| `EnvelopeCodec.Decoder.ReadEntry` | crates/hybrid-pq/src/envelope.rs:163-182 | The value under a key, with the checks each key demands |
| `EnvelopeCodec.ReadMap` | crates/hybrid-pq/src/envelope.rs:131-186 | Prefix, head and entry loop with its previous key: ascending keys, nothing after the last entry |
| `EnvelopeCodec.ReadPublicKey` | crates/hybrid-pq/src/envelope.rs:84-94 | Accepts exactly the encodings of public keys |
| `EnvelopeCodec.ReadSignature` | crates/hybrid-pq/src/envelope.rs:112-121 | Accepts exactly the encodings of signature envelopes |
| `EnvelopeCodec.ReadWrapper` | crates/hybrid-pq/src/wrapper.rs:205-336 | Accepts exactly the encodings of wrappers |
| `EnvelopeCodec.WriteUintPair` | crates/hybrid-pq/src/envelope.rs:320-323 | Appends one number entry |
| `EnvelopeCodec.WriteTextPair` | crates/hybrid-pq/src/envelope.rs:325-329 | Appends one text entry |
| `EnvelopeCodec.WriteBytesPair` | crates/hybrid-pq/src/envelope.rs:331-335 | Appends one byte-string entry |
| `EnvelopeCodec.WriteBlobsPair` | crates/hybrid-pq/src/wrapper.rs:158-163 | The loop appends any disclosure list, each item with its own head |
| `EnvelopeCodec.WritePublicKey` | crates/hybrid-pq/src/envelope.rs:70-82 | Writes the encoding that the decoder inverts |
| `EnvelopeCodec.WriteSignature` | crates/hybrid-pq/src/envelope.rs:96-110 | Writes the encoding that the decoder inverts |
| `EnvelopeCodec.WriteCommittedPayload` | crates/hybrid-pq/src/wrapper.rs:153-165 | Writes the committed payload of any payload and disclosures, empty ones included |
| `EnvelopeCodec.WriteWrapper` | crates/hybrid-pq/src/wrapper.rs:167-203 | Writes the encoding that the decoder inverts |
| `EnvelopeCodec.TryNewWrapper` | crates/hybrid-pq/src/wrapper.rs:65-110 | The checks in order, the disclosures in a loop, give the specified wrapper or first error |
| `EnvelopeCodec.ValidateKeyId` | crates/hybrid-pq/src/wrapper.rs:375-383 | Reports the specified key-identifier error |
| `Framing.FramesReadBack` | crates/hybrid-pq/src/tbs.rs:196-202 | A list of length-prefixed fields reads back to the same list |
| `Framing.TaggedReadBack` | crates/hybrid-pq/src/tbs.rs:187-202 | A run of numbered fields reads back to the same values |
| `Framing.FramesInjective` | crates/hybrid-pq/src/tbs.rs:196-202 | No two lists of fields frame to the same bytes |
| `Framing.WritePrefixed` | crates/hybrid-pq/src/tbs.rs:196-202 | Appends length and value, or refuses a length over 32 bits and appends nothing |
| `TbsTheorems.BuildSucceedsIff` | crates/hybrid-pq/src/tbs.rs:99-176 | The message is built exactly for signable contexts, per purpose, and payloads of at most 4096 bytes |
| `TbsTheorems.ContextRoundTrip` | crates/hybrid-pq/src/tbs.rs:67-97 | Every field of a signable context, absent ones included, is recovered from its encoding |
| `TbsTheorems.MessageRoundTrip` | crates/hybrid-pq/src/tbs.rs:150-176 | Purpose, context and payload are recovered from any message that was built |
| `TbsTheorems.MessageInjective` | crates/hybrid-pq/src/tbs.rs:150-176 | Equal messages were built from the same purpose, the same context and the same payload |
| `TbsTheorems.CommittedPayloadInjective` | crates/hybrid-pq/src/wrapper.rs:151-165 | The committed payload determines the payload and the disclosure list with its boundaries |
| `TbsTheorems.WrapperMessageIff` | crates/hybrid-pq/src/wrapper.rs:141-148 | A constructor-built wrapper never trips the payload cap: only its context can make signing fail |
| `TbsTheorems.WrapperMessageBinds` | crates/hybrid-pq/src/wrapper.rs:141-148 | Wrappers with the same signed bytes agree on purpose, payload, every disclosure and every context field |
| `TbsTheorems.VerifyWrapperIff` | crates/hybrid-pq/src/wrapper.rs:341-366 | A wrapper verifies exactly when purpose, both key identifiers and generation match, the context is signable and the verifier accepts the one rebuilt message |
| `TbsTheorems.AcceptedWrapperWasSigned` | crates/hybrid-pq/src/wrapper.rs:341-366 | Under a verifier that accepts only signed messages, an accepted wrapper's purpose, context, payload and disclosures were signed as they stand |
| `TbsTheorems.PurposeAllowsIff` | crates/hybrid-pq/src/tbs.rs:119-143 | A context suits a purpose exactly when the demanded slots are filled and the forbidden ones empty |
| `TbsTheorems.BuildErrors` | crates/hybrid-pq/src/tbs.rs:99-161 | Which error a refused message gets |
| `TbsCodec.WriteField` | crates/hybrid-pq/src/tbs.rs:187-194 | To any buffer, appends tag and length-prefixed value, an absent value as an empty one, and only the tag when the length does not fit |
| `TbsCodec.WriteContext` | crates/hybrid-pq/src/tbs.rs:67-97 | Validates, then writes the ten fields; none of the length checks can fail |
| `TbsCodec.BuildMessage` | crates/hybrid-pq/src/tbs.rs:151-176 | The builder as it runs returns the specified message or error, and the message decodes to what was signed |
| `AtomicVerify.GuardNeverFires` | crates/crypto-backend/src/experimental_pq.rs:102-107 | Decoded envelopes re-encode to the bytes they came from, so the re-encoding guard never rejects |
| `AtomicVerify.AcceptedIff` | crates/crypto-backend/src/experimental_pq.rs:93-172 | An input is accepted if and only if its envelopes encode a signature and a key for which every identity, generation, audience, nonce, time and downgrade check holds and both components verify over the one message |
| `AtomicVerify.RejectionRevealsNoComponent` | crates/crypto-backend/src/experimental_pq.rs:157-171 | A rejection is the same whatever the two component verifiers answered |
| `AtomicVerify.AcceptedWasSigned` | crates/crypto-backend/src/experimental_pq.rs:93-172 | One sound component is enough: if either verifier accepts only signed messages, an accepted purpose, context and payload were signed as they stand |
| `AtomicVerify.RejectionClasses` | crates/crypto-backend/src/experimental_pq.rs:93-181 | Which class a rejected input gets, for every input: the first failing stage in the one order |
| `WalletExport.ExportExact` | crates/hybrid-pq/src/use_cases.rs:142-205 | Decoding accepts exactly the encodings of constructor-built exports and returns the export |
| `WalletExport.FinalCheckRedundant` | crates/hybrid-pq/src/use_cases.rs:186-203 | Whatever the cursor and the constructor accept re-encodes to the input: the closing comparison never rejects |
| `WalletExport.ExportFits` | crates/hybrid-pq/src/use_cases.rs:142-163 | A constructor-built export always encodes within the total size cap |
| `WalletExport.ReadAllExact` | crates/hybrid-pq/src/use_cases.rs:164-188 | Field-by-field reading accepts exactly the written runs of admissible fields |
| `WalletExport.CommitmentBinds` | crates/hybrid-pq/src/use_cases.rs:129-139 | The signed commitment fits the signed payload and determines generation, checkpoint length and digest |
| `WalletExport.CommitmentLayout` | crates/hybrid-pq/src/use_cases.rs:129-139 | Every part of the signed commitment stands at its own offset |
| `ExportCodec.ExportCursor.Take` | crates/hybrid-pq/src/use_cases.rs:221-232 | Takes exactly n bytes or refuses |
| `ExportCodec.ExportCursor.Field` | crates/hybrid-pq/src/use_cases.rs:247-257 | Takes a length-prefixed field, refusing empty and oversized ones |
| `ExportCodec.ExportCursor.Done` | crates/hybrid-pq/src/use_cases.rs:258-260 | True exactly at the end of the input |
| `ExportCodec.DecodeExport` | crates/hybrid-pq/src/use_cases.rs:160-205 | The decoder as it runs accepts exactly the encodings of exports, with the specified error otherwise |
| `ExportCodec.EncodeExport` | crates/hybrid-pq/src/use_cases.rs:142-158 | The twelve writes produce the specified encoding |
| `ExportCodec.WriteExportField` | crates/hybrid-pq/src/use_cases.rs:207-210 | To any buffer, appends a 32-bit length, truncated as the cast does, and the value |
| `KeyAgreement.BothSidesAgree` | crates/crypto-backend/src/experimental_pq.rs:278-379 | With correct ECDH and KEM, for every admissible identity, generation and context and any randomness for which the KEM succeeds, the sender succeeds and both sides derive the same traffic key |
| `KeyAgreement.DecapsulateIff` | crates/crypto-backend/src/experimental_pq.rs:336-451 | The recipient releases a key exactly when identities and generation match, its own key is well formed, the exchange gives a 32-byte secret, the ciphertext has its size and the authenticated hash is the hash of its own view; nothing is assumed of the primitives |
| `KeyAgreement.ComponentsIff` | crates/crypto-backend/src/experimental_pq.rs:396-451 | The same for the entry point that is given the P-256 secret, with the key it releases, for an ephemeral share of any length |
| `KeyAgreement.OpenedIsReleased` | crates/crypto-backend/src/experimental_pq.rs:360-378 | A completed recipient run is a completed component run that releases the same key |
| `KeyAgreement.TranscriptReadBack` | crates/crypto-backend/src/experimental_pq.rs:488-517 | Sender, recipient, generation, context and all four public values are recovered from the transcript |
| `KeyAgreement.AuthenticatedViewsAgree` | crates/crypto-backend/src/experimental_pq.rs:396-451 | A recipient that accepts a sender's hash shares the sender's whole view, or the two transcripts are a collision of the hash |
| `KeyAgreement.OpenedViewsAgree` | crates/crypto-backend/src/experimental_pq.rs:336-379 | The same for the whole recipient side |
| `KeyAgreement.CombinerLayout` | crates/crypto-backend/src/experimental_pq.rs:463-471 | In the undelimited combiner input every component stands at its own offset, whatever the length of the ephemeral share |
| `KeyAgreement.CombinerInjective` | crates/crypto-backend/src/experimental_pq.rs:453-471 | Different secrets or public values never give the same combiner input; only the ephemeral share may be of any length, the other sizes are those the code enforces |
| `KeyAgreement.DerivationBinds` | crates/crypto-backend/src/experimental_pq.rs:396-471 | Any two completed calls of the component entry point that feed key derivation the same bytes used the same secrets and public values, an ephemeral share of any length included, and share their whole view or exhibit a hash collision; nothing is assumed of the primitives |
| `KeyAgreement.OpeningsBind` | crates/crypto-backend/src/experimental_pq.rs:336-379 | The same of any two completed runs of the whole recipient side |
| `KeyAgreement.WriteCombinerInput` | crates/crypto-backend/src/experimental_pq.rs:463-471 | The eight appends give the specified combiner input |
| `KeyAgreement.NegotiateIff` | crates/crypto-backend/src/experimental_pq.rs:262-274 | Only the single exact offer is accepted, and only when hybrid is required |
| `KeyAgreement.WriteTranscript` | crates/crypto-backend/src/experimental_pq.rs:488-509 | The nine appends give the specified transcript hash or the length error |
| `KeyAgreement.TrafficKeyBinds` | crates/crypto-backend/src/experimental_pq.rs:453-486 | Two derivations with equal keys had the same secrets, public values and transcript hash, or their inputs exhibit a collision of the key derivation |
| `KeyAgreement.KeysBind` | crates/crypto-backend/src/experimental_pq.rs:278-451 | Any two completed runs, of sender or recipient, that end with the same key had the same view and secrets, or exhibit a collision of key derivation or hash |
| `KeyAgreement.EncapsulateIff` | crates/crypto-backend/src/experimental_pq.rs:278-331 | The sender succeeds exactly with admissible parties, context and components, and publishes what it bound |
| `KeyAgreement.RefusalIff` | crates/crypto-backend/src/experimental_pq.rs:396-451 | Which error a refused component run reports, for every input: the first failing check in the one order |
| `KeyAgreement.NewAgreementKey` | crates/hybrid-pq/src/lib.rs:327-352 | A refused key names the classical component exactly when that one is malformed |
| `KeyAgreement.DeriveTrafficKey` | crates/crypto-backend/src/experimental_pq.rs:453-486 | Extraction and expansion give the specified key |
| `ProviderPolicy.PolicyIsASet` | crates/hybrid-pq/src/use_cases.rs:305-325 | Two valid lists build equal policies exactly when they hold the same origins |
| `ProviderPolicy.PolicyListing` | crates/hybrid-pq/src/use_cases.rs:319-324 | Sorting and dedup leave a strictly ordered list of exactly the given origins |
| `ProviderPolicy.BinarySearch` | crates/hybrid-pq/src/use_cases.rs:332-335 | The halving search finds an origin exactly when it is listed |
| `ProviderPolicy.Authorize` | crates/hybrid-pq/src/use_cases.rs:327-341 | Authorises exactly a listed origin with the one exact offer |
| `ProviderPolicy.AuthorizeFrom` | crates/hybrid-pq/src/use_cases.rs:305-341 | From configured list to decision: agreement with plain membership, and refusal of any list with an invalid origin |
| `ProviderPolicy.LessIsLexicographic` | crates/hybrid-pq/src/use_cases.rs:319-324 | The order used for sorting and searching is lexicographic by code point |
| `ProviderPolicy.OriginExact` | crates/hybrid-pq/src/use_cases.rs:306-318 | An origin is admissible exactly when it is `https://` and a non-empty authority of characters that are neither separators nor white space |
| `ProviderPolicy.WhitespaceExact` | crates/hybrid-pq/src/use_cases.rs:306-318 | The white-space characters, listed |
| `Rollout.ModeIsLeastStanding` | crates/hybrid-pq/src/rollout.rs:67-77 | After any history the mode is the least of the standing requests: never above the last local one, lowered by every remote request since |
| `Rollout.KilledIff` | crates/hybrid-pq/src/rollout.rs:80-90 | The kill switch is on exactly when some activation has had no local clearing since |
| `Rollout.AuthorisedIff` | crates/hybrid-pq/src/rollout.rs:111-122 | Exactly when a history authorises a new operation |
| `Rollout.RemoteOnlyRestricts` | crates/hybrid-pq/src/rollout.rs:64-122 | From any state, remote calls alone only take authorisations away, and existing artifacts stay readable |
| `Rollout.FallbackIgnoresKills` | crates/hybrid-pq/src/rollout.rs:124-132 | Erasing all kill-switch calls from a history leaves the fallback verdict as it was |
| `Rollout.DecideAfter` | crates/hybrid-pq/src/rollout.rs:64-122 | The object, after any calls from the default, authorises a new operation exactly under that condition and always opens existing artifacts |
| `Rollout.RolloutPolicy.Replay` | crates/hybrid-pq/src/rollout.rs:64-90 | Any sequence of calls, refused ones included, leaves the object in the state of the history |
| `Rollout.RolloutPolicy.Request` | crates/hybrid-pq/src/rollout.rs:67-77 | Sets the mode, or refuses a remote raise without change |
| `Rollout.RolloutPolicy.Kill` | crates/hybrid-pq/src/rollout.rs:80-82 | Activates the switch and leaves the mode |
| `Rollout.RolloutPolicy.Clear` | crates/hybrid-pq/src/rollout.rs:84-90 | Clears the switch for a local operator only |
| `Rollout.RolloutPolicy.Authorize` | crates/hybrid-pq/src/rollout.rs:111-122 | Decides as specified and changes nothing |
| `Rollout.RolloutPolicy.ClassicalFallback` | crates/hybrid-pq/src/rollout.rs:127-132 | Refuses fallback exactly in the effective mode HybridRequired |
| `Rollout.ModeTables` | crates/hybrid-pq/src/rollout.rs:16-55 | The order of the modes and the modes that suffice for each operation |
| `JsonPointer.EscapeExact` | ios/App/DisclosureFieldPicker.swift:48-52 | A token stands for a key under RFC 6901 exactly when it is the key's escape: the two replacements have an exact inverse |
| `JsonPointer.DecimalExact` | ios/App/DisclosureFieldPicker.swift:37-40 | An index token without leading zeros denotes a number exactly when it is its decimal form |
| `JsonPointer.PreviewText` | ios/App/DisclosureFieldPicker.swift:54-63 | A preview is the leaf's whole text up to 48 characters, otherwise its first 48 and one more |
| `JsonPointerTheorems.ListedIff` | ios/App/DisclosureFieldPicker.swift:30-46 | A field is listed by the uncapped traversal exactly when its pointer resolves, under RFC 6901, to the very leaf that its preview shows |
| `JsonPointerTheorems.LeavesDistinct` | ios/App/DisclosureFieldPicker.swift:30-46 | No pointer is listed twice |
| `JsonPointerTheorems.FieldsCorrect` | ios/App/DisclosureFieldPicker.swift:18-46 | The picker's list is the first 200 of the full listing: distinct pointers, each paired with the preview of the leaf it resolves to, and every leaf of the body when there are no more than 200 |
| `JsonPointerTheorems.Flatten` | ios/App/DisclosureFieldPicker.swift:30-46 | The capped in-place traversal, started with any list, leaves the first 200 of that list followed by the full listing, pointers and previews paired |
| `JsonPointerTheorems.ListFields` | ios/App/DisclosureFieldPicker.swift:20-28 | Nil for a scalar body, otherwise the capped listing of pointer and preview |
| `JsonPointerTheorems.PreviewExact` | ios/App/DisclosureFieldPicker.swift:54-63 | What a preview shows of each kind of leaf, ellipsis included |

## Left out

- Cryptographic primitives: ES256, ML-DSA-65, ECDH, ML-KEM-768, SHA-256 and HKDF are parameters.
- The `serde_json` call after the JSON scanner: library code.
- Zeroising drops, `Debug` redaction and telemetry formatting: no functional content.
- EnvelopeCodec.Decoder.ReadBlobs: `Vec::with_capacity` at `crates/hybrid-pq/src/wrapper.rs`, line 278, takes the announced count unbounded; a count too large to allocate stops the program there, where the model reports truncation. Which inputs are accepted is not affected.
- EnvelopeCodec.ReadWrapper: the same allocation, for the same inputs, none of which would be accepted.
- The other `Vec::with_capacity` hints: bounded sizes, no effect on results.
- How Foundation spells a number: the spelling is part of the leaf.
- Swift's ordering and canonical equivalence of strings: an object lists its members in the order its sorted keys are visited, with keys distinct as scalar sequences. Escaping replaces scalar by scalar; the Swift call compares without the literal option and may treat a `/` or `~` followed by a combining mark differently.
- Conversion of body bytes to JSON in the disclosure picker: library code; the model starts from the parsed tree.
- `crates/jwe`, `crates/catalogue`, `crates/oid4vci/src/pid_profile.rs`, the recovery artifact, the use-case gates and the export read and migration planners: they would only add easy members.
- Swift and Kotlin interfaces, networking, NFC, foreign-function bindings, Python tools, fuzz targets and benchmarks.
- `x5chain` evidence beyond sizes and counts: certificates are opaque byte strings here, as in the cited code.
- EnvelopeCodec.ReadMap: the optional locals that the parsers fill are one map from key to value.
