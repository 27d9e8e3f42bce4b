/** Image intake on the server: a client sends a captured frame as a data URI
    (the restricted form "data:<mime>;base64,<payload>" of the "data" URL
    scheme of RFC 2397), the server names the capture after the time it
    arrived and writes the decoded bytes to that file in the uploads
    directory. */
module ImageStore {
  import opened Wrappers
  import opened Base64

  const InvalidBase64Message := "Invalid base64 string"

  /** The directory the captures are written to; the server resolves it
      next to its own directory, here it is a fixed relative name. */
  const UploadsDir := "uploads"

  /** The characters of the MIME group of the pattern, [A-Za-z-+/]. */
  predicate IsMimeChar(c: char)
  {
    'A' <= c <= 'Z' || 'a' <= c <= 'z' || c == '-' || c == '+' || c == '/'
  }

  /** The code points a JavaScript '.' does not match. */
  predicate IsLineTerminator(c: char)
  {
    c == '\n' || c == '\r' || c == '\U{2028}' || c == '\U{2029}'
  }

  datatype DataUri = DataUri(mime: string, payload: string)

  const Scheme := "data:"
  const Marker := ";base64,"

  /** The string a data URI with this MIME type and payload is written as. */
  function Format(mime: string, payload: string): string
  {
    Scheme + mime + Marker + payload
  }

  /** When the whole of s matches the pattern ^data:([A-Za-z-+/]+);base64,(.+)$
      with the two groups captured as mime and payload. */
  predicate Matches(s: string, mime: string, payload: string)
  {
    && s == Format(mime, payload)
    && |mime| > 0 && (forall i :: 0 <= i < |mime| ==> IsMimeChar(mime[i]))
    && |payload| > 0 && (forall i :: 0 <= i < |payload| ==> !IsLineTerminator(payload[i]))
  }

  /** The length of the longest prefix of t made of MIME characters: the
      extent of the greedy group, which can never swallow the ';' after it. */
  function MimeRun(t: string): (n: nat)
    ensures n <= |t|
    ensures forall i :: 0 <= i < n ==> IsMimeChar(t[i])
    ensures n < |t| ==> !IsMimeChar(t[n])
  {
    if |t| == 0 || !IsMimeChar(t[0]) then 0 else 1 + MimeRun(t[1..])
  }

  predicate HasLineTerminator(s: string)
  {
    exists i :: 0 <= i < |s| && IsLineTerminator(s[i])
  }

  /** The match of the pattern against s, with its two groups. */
  function ParseDataUri(s: string): (r: Option<DataUri>)
    ensures r.Some? ==> Matches(s, r.value.mime, r.value.payload)
  {
    if |s| < |Scheme| || s[..|Scheme|] != Scheme then None
    else
      var t := s[|Scheme|..];
      var n := MimeRun(t);
      if n == 0 || |t| - n < |Marker| || t[n..n + |Marker|] != Marker then None
      else
        var payload := t[n + |Marker|..];
        if |payload| == 0 || HasLineTerminator(payload) then None
        else
          assert s == Format(t[..n], payload);
          Some(DataUri(t[..n], payload))
  }

  lemma MimeRunOfMatch(mime: string, rest: string)
    requires forall i :: 0 <= i < |mime| ==> IsMimeChar(mime[i])
    requires |rest| > 0 && rest[0] == ';'
    ensures MimeRun(mime + rest) == |mime|
  {
    assert (mime + rest)[|mime|] == ';';
  }

  /** The pattern has at most one match and the parser finds it: together
      with the ensures of ParseDataUri, s parses to (mime, payload) exactly
      when s matches the pattern with those groups. */
  lemma ParseDataUriComplete(s: string, mime: string, payload: string)
    requires Matches(s, mime, payload)
    ensures ParseDataUri(s) == Some(DataUri(mime, payload))
  {
    var t := s[|Scheme|..];
    assert s[..|Scheme|] == Scheme;
    assert t == mime + (Marker + payload);
    MimeRunOfMatch(mime, Marker + payload);
    assert t[..|mime|] == mime;
    assert t[|mime|..|mime| + |Marker|] == Marker;
    assert t[|mime| + |Marker|..] == payload;
  }

  /** What ends up in the file: the exact decoding of a canonical payload.
      Node also accepts payloads that are not canonical base64 and decodes
      them leniently; the model keeps such a payload's text. */
  datatype Content = Decoded(bytes: seq<byte>) | Lenient(text: string)

  datatype SaveResult = Written(content: Content) | Thrown(message: string)

  /** Buffer.from(payload, 'base64'): a canonical payload is stored as the
      bytes it is the encoding of; any other payload keeps its text. */
  function ContentOf(payload: string): (r: Content)
    ensures r.Decoded? ==> Encode(r.bytes) == payload
    ensures r.Lenient? <==> Decode(payload).None?
    ensures r.Lenient? ==> r.text == payload
  {
    match Decode(payload)
    case Some(b) =>
      EncodeDecode(payload, b);
      Decoded(b)
    case None => Lenient(payload)
  }

  /** saveBase64Image: match the pattern, throw unless it matches, decode
      the payload and write it. */
  function SaveImage(dataUri: string): (r: SaveResult)
    ensures r.Thrown? ==> r.message == InvalidBase64Message
  {
    match ParseDataUri(dataUri)
    case None => Thrown(InvalidBase64Message)
    case Some(d) => Written(ContentOf(d.payload))
  }

  /** The save throws exactly when the input does not match the pattern. */
  lemma SaveImageThrows(s: string)
    ensures SaveImage(s).Thrown? <==> forall m, p :: !Matches(s, m, p)
  {
    if SaveImage(s).Written? {
      var d := ParseDataUri(s).value;
      assert Matches(s, d.mime, d.payload);
    } else {
      forall m, p | Matches(s, m, p) ensures false {
        ParseDataUriComplete(s, m, p);
      }
    }
  }

  /** On success the bytes written are the decoding of the text after
      ";base64,". */
  lemma SaveImageWritesDecoding(s: string, mime: string, payload: string, b: seq<byte>)
    requires Matches(s, mime, payload) && Decode(payload) == Some(b)
    ensures SaveImage(s) == Written(Decoded(b))
  {
    ParseDataUriComplete(s, mime, payload);
  }

  lemma EncodingHasNoLineTerminator(b: seq<byte>)
    ensures !HasLineTerminator(Encode(b))
  {
    var e := Encode(b);
    EncodeChars(b);
    forall i | 0 <= i < |e| ensures !IsLineTerminator(e[i]) {
      assert IsEncodingChar(e[i]);
    }
  }

  /** Encoding bytes into a data URI and saving it writes those very bytes. */
  lemma SaveImageRoundTrip(mime: string, b: seq<byte>)
    requires |mime| > 0 && forall i :: 0 <= i < |mime| ==> IsMimeChar(mime[i])
    requires |b| > 0
    ensures SaveImage(Format(mime, Encode(b))) == Written(Decoded(b))
  {
    var e := Encode(b);
    EncodingHasNoLineTerminator(b);
    assert Matches(Format(mime, e), mime, e);
    DecodeEncode(b);
    SaveImageWritesDecoding(Format(mime, e), mime, e, b);
  }

  /** timestamp.replace(/:/g, '-'). */
  function ReplaceColons(s: string): (r: string)
    ensures |r| == |s|
    ensures forall i :: 0 <= i < |s| ==> r[i] == (if s[i] == ':' then '-' else s[i])
  {
    if s == [] then [] else [if s[0] == ':' then '-' else s[0]] + ReplaceColons(s[1..])
  }

  /** The name of the file a capture taken at the (already colon-free)
      timestamp is written to. */
  function CaptureFilename(timestamp: string): (r: string)
    ensures |r| == |timestamp| + 12
    ensures r[..8] == "capture_" && r[8..8 + |timestamp|] == timestamp && r[8 + |timestamp|..] == ".jpg"
  {
    "capture_" + timestamp + ".jpg"
  }

  function UploadPath(filename: string): string
  {
    UploadsDir + "/" + filename
  }

  /** A capture filename carries no ':' whatever the clock said. */
  lemma CaptureFilenameHasNoColon(iso: string)
    ensures ':' !in ReplaceColons(iso)
    ensures ':' !in CaptureFilename(ReplaceColons(iso))
  {
    var f := CaptureFilename(ReplaceColons(iso));
    forall i | 0 <= i < |f| ensures f[i] != ':' {
      if 8 <= i < 8 + |iso| {
        assert f[i] == ReplaceColons(iso)[i - 8];
      }
    }
  }

  /** Two captures share a file only when their timestamps agree once the
      colons are replaced: the name loses nothing of the timestamp. */
  lemma CaptureFilenameInjective(a: string, b: string)
    requires CaptureFilename(a) == CaptureFilename(b)
    ensures a == b
  {
    assert |a| == |b|;
    assert a == CaptureFilename(a)[8..8 + |a|];
  }
}
