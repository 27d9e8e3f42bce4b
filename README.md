# EcoSort capture server, modelled in Dafny

This project models the core of the EcoSort capture server
(`ecosort-webapp/server/index.js`). A polling device asks the server to
capture. The server asks the connected browsers for a camera frame. It saves
the frame, asks an external vision model for a bin, and keeps the answer in a
register for the device to poll.

The model has four modules.

- `Base64` (`base64.dfy`): the canonical base64 encoding of section 4 of
  RFC 4648. Decoding undoes encoding, and encoding undoes decoding.
- `ImageStore` (`image_store.dfy`): how an incoming data URI is matched and
  saved:
  - the pattern `^data:([A-Za-z-+/]+);base64,(.+)$`;
  - the "Invalid base64 string" error;
  - the decoded bytes that are written;
  - the capture file name derived from the clock.
- `Classifier` (`classifier.dfy`): how the server reads the model's reply. The
  HTTP calls are inputs: each call either threw or replied. What remains is a
  total function, `Classify`, with these steps:
  - give up on no candidate or a safety block;
  - run the extraction chain;
  - scan the serialized candidate;
  - make at most one retry;
  - normalize the text (trim, lower-case, keep only a-z);
  - map it in the order recycle, waste, mix.
- `CaptureServer` (`capture_server.dfy`): the server as a class. Its fields are:
  - the two registers (`latestClassification`, `latestCapturedImage`);
  - the connected sockets;
  - the once-listeners;
  - the trigger sessions (promise, 30-second timer, 5-second newcomer window);
  - the classifications in flight;
  - the uploads directory;
  - the emissions sent.

  Each method is one event of the event loop: trigger, connect, disconnect,
  window closes, timer fires, image arrives, classification completes, poll.
  `Valid()` is the invariant every event keeps.

Three behaviours of the code are worth knowing; the model keeps each of them.

- An image that arrives after the timeout still overwrites both registers,
  although the request was already answered with the timeout. The
  once-listeners are never removed on timeout (`LateImageAfterTimeout`).
- When two sockets answer one trigger, the second image is also saved and
  classified, and it overwrites both registers. Only its `resolve` has no
  effect. The reply to the trigger is built from the image register at the
  moment the first classification finishes. So it can pair the first
  client's category with the second client's image (`SecondClientOverwrites`).
- A first part whose text is the empty string is not retried. It normalizes
  to the empty text and maps to mix at 95 (`EmptyPartsTextIsMix`).

Confidences are whole percentages (95 and 50). Timestamps are opaque strings
passed in by the caller.

## Model

| member | source | states |
|---|---|---|
| Base64.ValueOf | ecosort-webapp/server/index.js:63 | the value of a base64 symbol is the one six-bit value whose symbol it is |
| Base64.Encode | ecosort-webapp/server/index.js:130 | an encoding is empty exactly for no bytes, at least one quantum for some bytes, at least two for more than three |
| Base64.EncodeLength | ecosort-webapp/server/index.js:130 | n bytes encode to 4·⌈n/3⌉ characters |
| Base64.EncodeChars | ecosort-webapp/server/index.js:130 | an encoding uses only the 64 symbols and '=' |
| Base64.DecodeFull | ecosort-webapp/server/index.js:63 | a quantum without pads decodes exactly when its four characters are symbols, to three bytes |
| Base64.DecodeLast | ecosort-webapp/server/index.js:63 | a final quantum decodes only with two leading symbols, to one, two or three bytes for two, one or no pads |
| Base64.Decode | ecosort-webapp/server/index.js:63 | a decodable string has a length that is a multiple of four, is empty exactly when its bytes are, and has no pad before its last quantum |
| Base64.DecodeEncode | ecosort-webapp/server/index.js:63 | decoding an encoding gives the bytes back |
| Base64.EncodeDecode | ecosort-webapp/server/index.js:63 | a string decodes only if it is the canonical encoding of what it decodes to |
| Base64.DecodeLastCanonical | ecosort-webapp/server/index.js:63 | a final quantum with 0–2 pads decodes to 1–3 bytes whose encoding is that quantum |
| ImageStore.MimeRun | ecosort-webapp/server/index.js:57 | the greedy MIME group: the longest prefix of MIME characters |
| ImageStore.ParseDataUri | ecosort-webapp/server/index.js:57-61 | a parse result is a match of the whole string with those two groups |
| ImageStore.ParseDataUriComplete | ecosort-webapp/server/index.js:57-61 | every match of the pattern is found, with its groups |
| ImageStore.SaveImage | ecosort-webapp/server/index.js:55-70 | the only error is "Invalid base64 string" |
| ImageStore.ContentOf | ecosort-webapp/server/index.js:63 | a canonical payload is stored as the bytes whose encoding it is; any other payload is kept as its text |
| ImageStore.SaveImageThrows | ecosort-webapp/server/index.js:57-61 | the save throws if and only if no MIME type and payload make the string match the pattern |
| ImageStore.SaveImageWritesDecoding | ecosort-webapp/server/index.js:63-66 | a matched canonical payload is written as exactly its decoded bytes |
| ImageStore.EncodingHasNoLineTerminator | ecosort-webapp/server/index.js:57 | a base64 encoding never contains a character the pattern's '.' refuses |
| ImageStore.SaveImageRoundTrip | ecosort-webapp/server/index.js:55-66 | bytes encoded into a data URI with a valid MIME type are saved as those bytes |
| ImageStore.ReplaceColons | ecosort-webapp/server/index.js:427 | each ':' becomes '-' and every other character stays |
| ImageStore.CaptureFilename | ecosort-webapp/server/index.js:428 | the name is "capture_", then the whole timestamp, then ".jpg" |
| ImageStore.CaptureFilenameHasNoColon | ecosort-webapp/server/index.js:427-428 | neither the stored timestamp nor the capture file name contains ':' |
| ImageStore.CaptureFilenameInjective | ecosort-webapp/server/index.js:428 | different timestamps give different file names |
| Classifier.Lower | ecosort-webapp/server/index.js:325 | lower-casing maps each character by itself and keeps the length |
| Classifier.LeadingSpaces | ecosort-webapp/server/index.js:325 | the leading white space trim removes, and no more |
| Classifier.TrailingSpaces | ecosort-webapp/server/index.js:325 | the trailing white space trim removes, and no more |
| Classifier.Trim | ecosort-webapp/server/index.js:325 | the trimmed text is the slice after the leading white space, starts and ends with non-space, and everything after it is white space |
| Classifier.KeepLetters | ecosort-webapp/server/index.js:325 | the result is made of a-z only and is no longer than the input |
| Classifier.KeepLettersOne | ecosort-webapp/server/index.js:325 | the empty text keeps nothing; one character is kept if and only if it is a-z |
| Classifier.Normalize | ecosort-webapp/server/index.js:325 | the normal form is over a-z and equals the letters of the lower-cased text, so trimming first changes nothing |
| Classifier.NormalizeFixesLetters | ecosort-webapp/server/index.js:325 | a string of a-z is its own normal form |
| Classifier.NormalizeIdempotent | ecosort-webapp/server/index.js:325 | normalizing the normal form again changes nothing |
| Classifier.Contains | ecosort-webapp/server/index.js:331-335 | `includes` holds if and only if the word occurs at some position |
| Classifier.MapCategory | ecosort-webapp/server/index.js:329-341 | recycle exactly when "recycle" occurs; waste exactly when "waste" occurs and "recycle" does not; mix otherwise, whether or not "mix" occurs |
| Classifier.Categorize | ecosort-webapp/server/index.js:325-341 | the category of any text, stated by which words occur in its lower-cased letters |
| Classifier.RetryText | ecosort-webapp/server/index.js:290-308 | the retry contributes only a non-empty text, and that text is its first candidate's first part text |
| Classifier.Extract | ecosort-webapp/server/index.js:242-266 | the extraction is undefined exactly for a first part without text, finds nothing exactly when no field has text and the serialization mentions neither word, and an empty text comes only from a first part |
| Classifier.Rejected | ecosort-webapp/server/index.js:200-227 | the reply is given up on exactly when the call threw, there is no or an empty candidate list, or the first candidate was blocked for safety |
| Classifier.Classify | ecosort-webapp/server/index.js:123-380 | every path reports success, with a category at 95 or mix at 50 |
| Classifier.ClassifyFallbacks | ecosort-webapp/server/index.js:201-378 | mix at 50 on a thrown call, no or an empty candidate list, a safety block, and a retry without text |
| Classifier.ClassifyFallbackExactly | ecosort-webapp/server/index.js:201-380 | the result is the fallback if and only if one of those paths is taken or the first part has no text |
| Classifier.MaxTokensIsIgnored | ecosort-webapp/server/index.js:229-232 | a MAX_TOKENS reply is classified like the same reply without a finish reason |
| Classifier.OnlyFirstCandidateCounts | ecosort-webapp/server/index.js:213 | candidates after the first make no difference |
| Classifier.RetryOnlyWhenNeeded | ecosort-webapp/server/index.js:242-266 | unless the extraction chain found nothing, the retry's outcome makes no difference |
| Classifier.RetryAcceptedWhenTruthy | ecosort-webapp/server/index.js:290-320 | when the retry is made, its first candidate's first part text is used if and only if it is a non-empty string, else the fallback |
| Classifier.PartsTextFirst | ecosort-webapp/server/index.js:242-243 | with a non-empty parts list, the first part's text is the extracted text, whatever the content text, candidate text and serialized candidate are |
| Classifier.ContentTextSecond | ecosort-webapp/server/index.js:244-245 | without parts, a non-empty content text wins over candidate text and the serialized candidate |
| Classifier.CandidateTextThird | ecosort-webapp/server/index.js:246-247 | then a non-empty candidate text wins over the serialized candidate |
| Classifier.ScanNeverMix | ecosort-webapp/server/index.js:252-266 | the scan gives recycle if the serialized candidate mentions it, else waste if it mentions that, else the retry decides; it never gives mix |
| Classifier.EmptyPartsTextIsMix | ecosort-webapp/server/index.js:242-354 | an empty first-part text is not retried and gives mix at 95 |
| Classifier.MissingPartsTextFallsBack | ecosort-webapp/server/index.js:242-378 | a first part without text makes the trim throw and gives the fallback |
| Classifier.FoundTextIsCategorized | ecosort-webapp/server/index.js:325-354 | an extracted text is mapped at 95, to recycle exactly when its letters contain "recycle" |
| CaptureServer.ReplyFor | ecosort-webapp/server/index.js:511-539 | on success a 200 whose top-level classification equals data.classification and whose image is null exactly when the image register is; on failure a 500 carrying the error's message |
| CaptureServer.Settle | ecosort-webapp/server/index.js:412-504 | resolve or reject changes a pending promise only, and only that one |
| CaptureServer.Disarm | ecosort-webapp/server/index.js:420 | clearTimeout disarms the session's timer and changes nothing else |
| CaptureServer.SettleOnce | ecosort-webapp/server/index.js:412-504 | a settled promise stays settled with its first outcome |
| CaptureServer.OrMix | ecosort-webapp/server/index.js:444 | `classification \|\| "mix"` is "mix" for an empty classification and keeps a non-empty one |
| CaptureServer.StartSignals | ecosort-webapp/server/index.js:480-484 | one start_capture per socket, in order |
| CaptureServer.EachSocketSignalledOnce | ecosort-webapp/server/index.js:476-484 | each connected socket receives exactly one start_capture |
| CaptureServer.TriggerConsistent | ecosort-webapp/server/index.js:398-504 | a trigger keeps the server invariant |
| CaptureServer.ImageWrittenConsistent | ecosort-webapp/server/index.js:419-437 | a saved image keeps the server invariant |
| CaptureServer.ImageRefusedConsistent | ecosort-webapp/server/index.js:462-465 | a refused image keeps the server invariant |
| CaptureServer.CompletionConsistent | ecosort-webapp/server/index.js:439-453 | a finished classification keeps the server invariant |
| CaptureServer.Server.constructor | ecosort-webapp/server/index.js:35-45 | the server starts pending, with no image and no channel |
| CaptureServer.Server.InitChannel | ecosort-webapp/server/index.js:623 | the channel becomes ready and nothing else changes |
| CaptureServer.Server.Trigger | ecosort-webapp/server/index.js:397-557 | without a channel: a 500 and nothing changes; otherwise both registers are reset, a session with an armed timer opens, and the sockets get listeners and start signals, or everyone gets one and the newcomer window opens |
| CaptureServer.Server.AskEachSocket | ecosort-webapp/server/index.js:476-484 | the loop registers one once-listener and sends one start_capture per socket, in order |
| CaptureServer.Server.Connect | ecosort-webapp/server/index.js:491-497 | a socket that connects while windows are open gets one listener and one start_capture per open window |
| CaptureServer.Server.Disconnect | ecosort-webapp/server/index.js:696-698 | the socket and its listeners are gone, the other sockets keep their order, and nothing else changes |
| CaptureServer.RemoveClient | ecosort-webapp/server/index.js:696-698 | the remaining sockets are the others, without duplicates |
| CaptureServer.RemoveClientKeepsOrder | ecosort-webapp/server/index.js:696-698 | removing a socket that is not connected changes nothing; otherwise exactly its one entry goes and the others keep their order |
| CaptureServer.Server.WindowCloses | ecosort-webapp/server/index.js:499-502 | the connection hook of that session is removed |
| CaptureServer.Server.TimerFires | ecosort-webapp/server/index.js:414-416 | the timer can only fire on a pending promise, which it rejects with the timeout message; the listeners stay |
| CaptureServer.Server.ImageCaptured | ecosort-webapp/server/index.js:419-473 | the listener is used up and the timer cleared; a refused URI rejects with "Invalid base64 string"; otherwise the file is written, the image register set to the colon-free timestamp and its file, and a classification starts |
| CaptureServer.Server.ClassificationCompletes | ecosort-webapp/server/index.js:439-453 | the classification register is overwritten, the result is sent to the socket, and the promise resolves unless it already settled |
| CaptureServer.Server.Poll | ecosort-webapp/server/index.js:580-588 | the classification register, which is the pending reset or a category name |
| CaptureServer.Server.LatestImage | ecosort-webapp/server/index.js:591-603 | the stored file of the latest capture, or 404 "No image available" |
| CaptureServer.LateImageAfterTimeout | ecosort-webapp/server/index.js:414-447 | after a timeout reply, a late image still sets both registers |
| CaptureServer.SecondClientOverwrites | ecosort-webapp/server/index.js:432-523 | the reply carries the first client's category with the second client's image, and the register ends with the second client's category |

## Left out

- Node's lenient base64 decoder: a payload that matches the pattern but is
  not canonical base64 is stored as its text (`Content.Lenient`). The model
  does not invent the bytes Node would write for it.
- `toLowerCase` is modelled on ASCII letters only. Unicode case mapping is
  not modelled.
- Timestamps: `new Date().toISOString()` is an input string. The timestamps
  inside the registers and replies are not modelled.
- Google authentication, the token request, the file read, the request
  payloads and the POSTs are foreign calls. Their outcome is the `Exchange`
  input, and a throw anywhere among them is `Threw`.
- The JSON serialization of a candidate is an input
  string of its own. The model does not derive it from the other fields.
- JSON fields of other types (a number where text is expected, a `null` part)
  are not modelled. Text fields are strings or absent.
- The `status !== 'success'` branch and the `.catch` of the classification
  promise are not modelled. `Classify` proves that every result has status
  success and never throws, so neither can run.
- HTTP framing (headers, Content-Length) and the routing of other paths are
  not modelled, nor is the Next.js handler.
- The Arduino test endpoint, the unused `mockProcessingResult`, server
  start-up and the network-interface listing are not modelled.
- The legacy `capture_image` socket handler is not modelled. It registers a
  persistent listener per request.
- The file system is a map from path to content. `mkdirSync` is not
  modelled. `existsSync` in the latest-image endpoint always holds in the
  model, because files are never deleted.
- One socket event that reaches several once-listeners of the same socket
  is modelled as consecutive deliveries, one per listener.
- A processing result is sent only to a socket that is still connected,
  since an emit on a closed socket goes nowhere.
- Real timers and wall-clock time: the timer and the window are events that
  the caller orders.
