/** How the server turns the reply of the external vision model into one of
    three bins. The HTTP exchanges themselves are inputs: the first reply and
    the reply to the one retry the server may make, each either a parsed
    response or the exception the call (or the token request and the file
    read before it) threw. What remains is a total decision procedure. */
module Classifier {
  import opened Wrappers

  datatype Category = Recycle | Waste | Mix

  function Name(c: Category): string
  {
    match c
    case Recycle => "recycle"
    case Waste => "waste"
    case Mix => "mix"
  }

  /** The server reports confidence 0.95 for a mapped answer and 0.50 for the
      fallback; both are kept as whole percentages. */
  const MatchedConfidence := 95
  const FallbackConfidence := 50

  /** Every path of the classifier reports "success"; the failure status is
      the one the capture session tests for and never receives. */
  datatype Status = Success | Failure

  /** The classifier's result. Its detection label and its classification
      are always the same category, so one field stands for both. */
  datatype ClassifierResult = ClassifierResult(status: Status, classification: Category, confidence: nat)

  const Fallback := ClassifierResult(Success, Mix, FallbackConfidence)

  // ---------------------------------------------------------------------
  // Normalization: trim, lower-case, delete every character outside a-z.

  /** The code points String.prototype.trim removes: white space and line
      terminators. */
  predicate IsSpace(c: char)
  {
    c == ' ' || c == '\t' || c == '\n' || c == '\r' || c == '\U{B}' || c == '\U{C}'
    || c == '\U{A0}' || c == '\U{FEFF}' || c == '\U{1680}' || '\U{2000}' <= c <= '\U{200A}'
    || c == '\U{2028}' || c == '\U{2029}' || c == '\U{202F}' || c == '\U{205F}' || c == '\U{3000}'
  }

  predicate IsLowerLetter(c: char)
  {
    'a' <= c <= 'z'
  }

  function LowerChar(c: char): char
  {
    if 'A' <= c <= 'Z' then (c as int + 32) as char else c
  }

  function Lower(s: string): (r: string)
    ensures |r| == |s|
    ensures forall i :: 0 <= i < |s| ==> r[i] == LowerChar(s[i])
  {
    if s == [] then [] else [LowerChar(s[0])] + Lower(s[1..])
  }

  function LeadingSpaces(s: string): (n: nat)
    ensures n <= |s|
    ensures forall i :: 0 <= i < n ==> IsSpace(s[i])
    ensures n < |s| ==> !IsSpace(s[n])
  {
    if |s| == 0 || !IsSpace(s[0]) then 0 else 1 + LeadingSpaces(s[1..])
  }

  function TrailingSpaces(s: string): (n: nat)
    ensures n <= |s|
    ensures forall i :: |s| - n <= i < |s| ==> IsSpace(s[i])
    ensures n < |s| ==> !IsSpace(s[|s| - n - 1])
  {
    if |s| == 0 || !IsSpace(s[|s| - 1]) then 0 else 1 + TrailingSpaces(s[..|s| - 1])
  }

  /** s without its leading and trailing white space. */
  function Trim(s: string): (r: string)
    ensures LeadingSpaces(s) + |r| <= |s|
    ensures |r| > 0 ==> !IsSpace(r[0]) && !IsSpace(r[|r| - 1])
    ensures r == s[LeadingSpaces(s)..LeadingSpaces(s) + |r|]
    ensures forall i :: LeadingSpaces(s) + |r| <= i < |s| ==> IsSpace(s[i])
  {
    var t := s[LeadingSpaces(s)..];
    t[..|t| - TrailingSpaces(t)]
  }

  /** s.replace(/[^a-z]/g, ''). */
  function KeepLetters(s: string): (r: string)
    ensures |r| <= |s|
    ensures forall i :: 0 <= i < |r| ==> IsLowerLetter(r[i])
  {
    if s == [] then []
    else (if IsLowerLetter(s[0]) then [s[0]] else []) + KeepLetters(s[1..])
  }


  lemma {:induction false} KeepLettersAppend(a: string, b: string)
    ensures KeepLetters(a + b) == KeepLetters(a) + KeepLetters(b)
    decreases |a|
  {
    if a != [] {
      assert (a + b)[1..] == a[1..] + b;
      KeepLettersAppend(a[1..], b);
    } else {
      assert a + b == b;
    }
  }

  /** With KeepLettersAppend this fixes the replacement: a letter a-z is kept
      where it stands, any other character is dropped. */
  lemma KeepLettersOne(c: char)
    ensures KeepLetters([]) == []
    ensures KeepLetters([c]) == (if IsLowerLetter(c) then [c] else [])
  {
  }

  lemma LowerAppend(a: string, b: string)
    ensures Lower(a + b) == Lower(a) + Lower(b)
  {
    assert forall i :: 0 <= i < |a + b| ==> Lower(a + b)[i] == (Lower(a) + Lower(b))[i];
  }

  lemma {:induction false} KeepLettersOfSpaces(s: string)
    requires forall i :: 0 <= i < |s| ==> IsSpace(s[i])
    ensures KeepLetters(Lower(s)) == []
    decreases |s|
  {
    if s != [] {
      assert Lower(s) == [LowerChar(s[0])] + Lower(s[1..]);
      assert Lower(s)[1..] == Lower(s[1..]);
      KeepLettersOfSpaces(s[1..]);
    }
  }

  lemma {:induction false} KeepLettersOfLetters(s: string)
    requires forall i :: 0 <= i < |s| ==> IsLowerLetter(s[i])
    ensures KeepLetters(s) == s
    decreases |s|
  {
    if s != [] {
      KeepLettersOfLetters(s[1..]);
    }
  }

  /** responseText.trim().toLowerCase().replace(/[^a-z]/g, ''). The result
      is over a-z, and trimming first makes no difference: the white space it
      removes would be deleted anyway. */
  function Normalize(s: string): (r: string)
    ensures forall i :: 0 <= i < |r| ==> IsLowerLetter(r[i])
    ensures r == KeepLetters(Lower(s))
  {
    var k := LeadingSpaces(s);
    var t := s[k..];
    var m := |t| - TrailingSpaces(t);
    assert s == s[..k] + (t[..m] + t[m..]);
    KeepLettersOfSpaces(s[..k]);
    KeepLettersOfSpaces(t[m..]);
    LowerAppend(s[..k], t[..m] + t[m..]);
    LowerAppend(t[..m], t[m..]);
    KeepLettersAppend(Lower(s[..k]), Lower(t[..m] + t[m..]));
    KeepLettersAppend(Lower(t[..m]), Lower(t[m..]));
    KeepLetters(Lower(Trim(s)))
  }

  /** A string of lower-case letters is its own normal form. */
  lemma NormalizeFixesLetters(s: string)
    requires forall i :: 0 <= i < |s| ==> IsLowerLetter(s[i])
    ensures Normalize(s) == s
  {
    assert Lower(s) == s;
    KeepLettersOfLetters(s);
  }

  /** The normal form is over a-z only, and normalizing it again changes
      nothing. */
  lemma NormalizeIdempotent(s: string)
    ensures Normalize(Normalize(s)) == Normalize(s)
  {
    NormalizeFixesLetters(Normalize(s));
  }

  // ---------------------------------------------------------------------
  // Mapping: substring tests in the order recycle, waste, mix.

  /** w occurs in s starting at position i. */
  predicate OccursAt(s: string, w: string, i: int)
  {
    0 <= i <= |s| - |w| && s[i..i + |w|] == w
  }

  /** w occurs in s at some position. */
  ghost predicate Occurs(s: string, w: string)
  {
    exists i :: OccursAt(s, w, i)
  }

  /** When s does not start with w, w occurs in s exactly when it occurs in
      s without its first character. */
  lemma ShiftOccurs(s: string, w: string)
    requires |s| > 0 && !OccursAt(s, w, 0)
    ensures Occurs(s, w) <==> Occurs(s[1..], w)
  {
    if Occurs(s, w) {
      var i :| OccursAt(s, w, i);
      assert s[1..][i - 1..i - 1 + |w|] == s[i..i + |w|];
      assert OccursAt(s[1..], w, i - 1);
    }
    if Occurs(s[1..], w) {
      var j :| OccursAt(s[1..], w, j);
      assert s[1..][j..j + |w|] == s[j + 1..j + 1 + |w|];
      assert OccursAt(s, w, j + 1);
    }
  }

  /** responseText.includes(w): w occurs in s at some position. */
  function Contains(s: string, w: string): (b: bool)
    ensures b <==> Occurs(s, w)
    decreases |s|
  {
    if |w| > |s| then false
    else if s[..|w|] == w then
      assert OccursAt(s, w, 0);
      true
    else
      ShiftOccurs(s, w);
      Contains(s[1..], w)
  }

  /** The category of a normalized answer: recycle whenever it occurs, waste
      when it occurs without recycle, and mix otherwise, whether or not the
      answer says mix. */
  function MapCategory(t: string): (r: Category)
    ensures r == Recycle <==> Occurs(t, "recycle")
    ensures r == Waste <==> !Occurs(t, "recycle") && Occurs(t, "waste")
    ensures r == Mix <==> !Occurs(t, "recycle") && !Occurs(t, "waste")
  {
    if t == "recycle" || Contains(t, "recycle") then
      assert t == "recycle" ==> t[0..0 + |"recycle"|] == "recycle" && OccursAt(t, "recycle", 0);
      Recycle
    else if t == "waste" || Contains(t, "waste") then
      assert t == "waste" ==> t[0..0 + |"waste"|] == "waste" && OccursAt(t, "waste", 0);
      Waste
    else if t == "mix" || Contains(t, "mix") then Mix
    else Mix
  }

  /** The category the server gives a piece of answer text, stated on the
      lower-cased letters of the text: "Recycle!!", " RECYCLE " and "the
      recycle bin" all keep the letters of "recycle" in a row and so map to
      recycle; "garbage-waste-item" keeps "waste" and no "recycle" and maps
      to waste; "banana" keeps neither and maps to mix. */
  function Categorize(text: string): (r: Category)
    ensures r == Recycle <==> Occurs(KeepLetters(Lower(text)), "recycle")
    ensures r == Waste <==>
      !Occurs(KeepLetters(Lower(text)), "recycle") && Occurs(KeepLetters(Lower(text)), "waste")
    ensures r == Mix <==>
      !Occurs(KeepLetters(Lower(text)), "recycle") && !Occurs(KeepLetters(Lower(text)), "waste")
  {
    MapCategory(Normalize(text))
  }

  // ---------------------------------------------------------------------
  // The model's reply and how the server reads it.

  /** One part of a candidate's content; text is absent when the part
      carries something else (or nothing). */
  datatype Part = Part(text: Option<string>)

  datatype CandidateContent = CandidateContent(parts: Option<seq<Part>>, text: Option<string>)

  /** A candidate as far as the server looks at it. The JSON serialization of
      the whole candidate is kept as its own field: it also covers the fields
      (safety ratings, further parts) that the server reads only through it. */
  datatype Candidate = Candidate(finishReason: Option<string>, content: Option<CandidateContent>,
                                 text: Option<string>, serialized: string)

  datatype Response = Response(candidates: Option<seq<Candidate>>)

  /** One call to the model: either it threw (the token request, the file
      read or the POST) or it replied. */
  datatype Exchange = Threw | Replied(response: Response)

  /** A JavaScript string value tested for truth: present and not empty. */
  predicate Truthy(s: Option<string>)
  {
    s.Some? && |s.value| > 0
  }

  predicate HasParts(c: Candidate)
  {
    c.content.Some? && c.content.value.parts.Some? && |c.content.value.parts.value| > 0
  }

  /** What the extraction chain gives: a text to normalize, a first part
      without text (whose trim throws), or nothing, which calls for the
      retry. */
  datatype Extraction = Text(text: string) | Undefined | NoText

  /** The serialized candidate, lower-cased, mentions w. */
  predicate Mentions(c: Candidate, w: string)
  {
    Contains(Lower(c.serialized), w)
  }

  /** The extraction chain: first part's text, content text, candidate text,
      then a scan of the serialized candidate for recycle and then waste. */
  function Extract(c: Candidate): (r: Extraction)
    ensures r.Undefined? <==> HasParts(c) && c.content.value.parts.value[0].text.None?
    ensures r.NoText? <==>
      && !HasParts(c) && !(c.content.Some? && Truthy(c.content.value.text)) && !Truthy(c.text)
      && !Mentions(c, "recycle") && !Mentions(c, "waste")
    ensures r.Text? && r.text == "" ==> HasParts(c)
  {
    if HasParts(c) then
      match c.content.value.parts.value[0].text
      case Some(t) => Text(t)
      case None => Undefined
    else if c.content.Some? && Truthy(c.content.value.text) then Text(c.content.value.text.value)
    else if Truthy(c.text) then Text(c.text.value)
    else if Mentions(c, "recycle") then Text("recycle")
    else if Mentions(c, "waste") then Text("waste")
    else NoText
  }

  /** The text the retry contributes: the first part's text of the first
      candidate, and only when it is a non-empty string. A missing level
      (an empty candidate or part list included) throws inside the retry's
      own try and so contributes nothing, like a failed call. */
  function RetryText(retry: Exchange): (r: Option<string>)
    ensures r.Some? ==> |r.value| > 0
    ensures r.Some? ==>
      && FirstCandidate(retry).Some? && HasParts(FirstCandidate(retry).value)
      && r == FirstCandidate(retry).value.content.value.parts.value[0].text
  {
    match retry
    case Threw => None
    case Replied(resp) =>
      if resp.candidates.Some? && |resp.candidates.value| > 0 then
        var c := resp.candidates.value[0];
        if HasParts(c) && Truthy(c.content.value.parts.value[0].text) then
          c.content.value.parts.value[0].text
        else None
      else None
  }

  function Matched(c: Category): ClassifierResult
  {
    ClassifierResult(Success, c, MatchedConfidence)
  }

  /** The first candidate, when the reply has one. */
  function FirstCandidate(first: Exchange): Option<Candidate>
  {
    if first.Replied? && first.response.candidates.Some? && |first.response.candidates.value| > 0 then
      Some(first.response.candidates.value[0])
    else None
  }

  /** The reply is one the server gives up on straight away: the call threw,
      there is no candidate, or the first candidate was blocked for safety. */
  predicate Rejected(first: Exchange)
    ensures Rejected(first) <==>
      || first.Threw?
      || first.response.candidates.None?
      || |first.response.candidates.value| == 0
      || first.response.candidates.value[0].finishReason == Some("SAFETY")
  {
    FirstCandidate(first).None? || FirstCandidate(first).value.finishReason == Some("SAFETY")
  }

  /** The server goes on to the retry. */
  predicate NeedsRetry(first: Exchange)
  {
    !Rejected(first) && Extract(FirstCandidate(first).value).NoText?
  }

  /** classifyImageWithGoogleAI on the outcome of its first call and of the
      retry it makes when the first reply yields no text. Every path ends in
      a successful result: a mapped category at 95, or mix at 50. */
  function Classify(first: Exchange, retry: Exchange): (r: ClassifierResult)
    ensures r.status == Success
    ensures r.confidence == MatchedConfidence || r == Fallback
  {
    if Rejected(first) then Fallback
    else
      match Extract(FirstCandidate(first).value)
      case Undefined => Fallback
      case Text(t) => Matched(Categorize(t))
      case NoText =>
        match RetryText(retry)
        case None => Fallback
        case Some(t) => Matched(Categorize(t))
  }

  /** The four ways to the fallback result. */
  lemma ClassifyFallbacks(first: Exchange, retry: Exchange)
    ensures first.Threw? ==> Classify(first, retry) == Fallback
    ensures first.Replied? && (first.response.candidates.None? || first.response.candidates == Some([]))
            ==> Classify(first, retry) == Fallback
    ensures FirstCandidate(first).Some? && FirstCandidate(first).value.finishReason == Some("SAFETY")
            ==> Classify(first, retry) == Fallback
    ensures NeedsRetry(first) && RetryText(retry).None? ==> Classify(first, retry) == Fallback
  {
  }

  /** The result is the fallback exactly on those four paths and on a first
      part without text; everywhere else it is a category at 95. */
  lemma ClassifyFallbackExactly(first: Exchange, retry: Exchange)
    ensures Classify(first, retry) == Fallback <==>
      || Rejected(first)
      || Extract(FirstCandidate(first).value).Undefined?
      || (NeedsRetry(first) && RetryText(retry).None?)
  {
  }

  /** A truncated reply is read like one without a finish reason. */
  lemma MaxTokensIsIgnored(c: Candidate, rest: seq<Candidate>, retry: Exchange)
    ensures Classify(Replied(Response(Some([c.(finishReason := Some("MAX_TOKENS"))] + rest))), retry)
         == Classify(Replied(Response(Some([c.(finishReason := None)] + rest))), retry)
  {
    var truncated, plain := c.(finishReason := Some("MAX_TOKENS")), c.(finishReason := None);
    assert FirstCandidate(Replied(Response(Some([truncated] + rest)))) == Some(truncated);
    assert FirstCandidate(Replied(Response(Some([plain] + rest)))) == Some(plain);
    assert |"MAX_TOKENS"| != |"SAFETY"|;
    assert Extract(truncated) == Extract(plain);
  }

  /** Only the first candidate counts. */
  lemma OnlyFirstCandidateCounts(c: Candidate, rest: seq<Candidate>, retry: Exchange)
    ensures Classify(Replied(Response(Some([c] + rest))), retry)
         == Classify(Replied(Response(Some([c]))), retry)
  {
  }

  /** The retry is made at most once and only when the chain found nothing:
      otherwise its outcome makes no difference. */
  lemma RetryOnlyWhenNeeded(first: Exchange, retry1: Exchange, retry2: Exchange)
    requires !NeedsRetry(first)
    ensures Classify(first, retry1) == Classify(first, retry2)
  {
  }

  /** When the retry is made, its text is used exactly when it is a
      non-empty string. */
  lemma RetryAcceptedWhenTruthy(first: Exchange, retry: Exchange)
    requires NeedsRetry(first)
    ensures Classify(first, retry) ==
      (if RetryText(retry).Some? then Matched(Categorize(RetryText(retry).value)) else Fallback)
    ensures RetryText(retry).Some? <==>
      (retry.Replied? && FirstCandidate(retry).Some? && HasParts(FirstCandidate(retry).value)
       && Truthy(FirstCandidate(retry).value.content.value.parts.value[0].text))
    ensures RetryText(retry).Some? ==>
      RetryText(retry) == FirstCandidate(retry).value.content.value.parts.value[0].text
  {
  }

  /** The first part's text takes precedence over the content's text, the
      candidate's text and the serialized candidate, whatever those are. */
  lemma PartsTextFirst(c: Candidate, contentText: Option<string>, text: Option<string>, serialized: string)
    requires HasParts(c)
    ensures Extract(c.(content := Some(c.content.value.(text := contentText)), text := text, serialized := serialized))
         == Extract(c)
    ensures c.content.value.parts.value[0].text.Some? ==>
      Extract(c) == Text(c.content.value.parts.value[0].text.value)
  {
  }

  /** Without parts, a non-empty content text takes precedence over the
      candidate's text and the serialized candidate. */
  lemma ContentTextSecond(c: Candidate, text: Option<string>, serialized: string)
    requires !HasParts(c) && c.content.Some? && Truthy(c.content.value.text)
    ensures Extract(c.(text := text, serialized := serialized)) == Text(c.content.value.text.value)
  {
  }

  /** Without parts or content text, a non-empty candidate text takes
      precedence over the serialized candidate. */
  lemma CandidateTextThird(c: Candidate, serialized: string)
    requires !HasParts(c) && !(c.content.Some? && Truthy(c.content.value.text)) && Truthy(c.text)
    ensures Extract(c.(serialized := serialized)) == Text(c.text.value)
  {
  }

  lemma CategorizeRecycleWord()
    ensures Categorize("recycle") == Recycle
  {
    assert forall i :: 0 <= i < |"recycle"| ==> IsLowerLetter("recycle"[i]);
    NormalizeFixesLetters("recycle");
  }

  lemma CategorizeWasteWord()
    ensures Categorize("waste") == Waste
  {
    assert forall i :: 0 <= i < |"waste"| ==> IsLowerLetter("waste"[i]);
    NormalizeFixesLetters("waste");
  }

  /** The scan of the serialized candidate gives recycle or waste and never
      mix: recycle when the lower-cased serialization mentions it, else waste
      when it mentions that, else nothing and the retry decides. */
  lemma ScanNeverMix(first: Exchange, retry: Exchange)
    requires FirstCandidate(first).Some?
    requires !Rejected(first)
    requires var c := FirstCandidate(first).value;
      !HasParts(c) && !(c.content.Some? && Truthy(c.content.value.text)) && !Truthy(c.text)
    ensures var c := FirstCandidate(first).value;
      && (Mentions(c, "recycle") ==> Classify(first, retry) == Matched(Recycle))
      && (!Mentions(c, "recycle") && Mentions(c, "waste") ==> Classify(first, retry) == Matched(Waste))
      && (!Mentions(c, "recycle") && !Mentions(c, "waste") ==> NeedsRetry(first))
  {
    CategorizeRecycleWord();
    CategorizeWasteWord();
  }

  /** An empty first-part text is a string, so it is not retried: it
      normalizes to the empty text and maps to mix at 95. */
  lemma EmptyPartsTextIsMix(first: Exchange, retry: Exchange)
    requires !Rejected(first)
    requires var c := FirstCandidate(first).value;
      HasParts(c) && c.content.value.parts.value[0].text == Some("")
    ensures Classify(first, retry) == Matched(Mix)
  {
  }

  /** A first part without text makes the trim throw, which the catch-all
      turns into the fallback; the retry is not tried. */
  lemma MissingPartsTextFallsBack(first: Exchange, retry: Exchange)
    requires !Rejected(first)
    requires var c := FirstCandidate(first).value;
      HasParts(c) && c.content.value.parts.value[0].text.None?
    ensures Classify(first, retry) == Fallback
  {
  }

  /** A found text is classified by its letters alone, with the confidence
      of a match. */
  lemma FoundTextIsCategorized(first: Exchange, retry: Exchange, t: string)
    requires !Rejected(first) && Extract(FirstCandidate(first).value) == Text(t)
    ensures Classify(first, retry) == Matched(Categorize(t))
    ensures Classify(first, retry).classification == Recycle <==> Occurs(KeepLetters(Lower(t)), "recycle")
  {
  }
}
