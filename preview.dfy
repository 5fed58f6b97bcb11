/**
 * The preview component (frontend/src/components/Preview.jsx).
 *
 * Two parts. The payload normaliser (the component's `useMemo`) turns the
 * `base64` prop into a blob URL, a data URI for a new tab, and the decoded
 * bytes. The render controller (the component's effects) draws every page of
 * the decoded document into a container, one canvas and one spacer per page,
 * under a generation counter that lets a newer render silence an older one.
 *
 * PDF.js is abstract: a loading task is a handle, a document is its page
 * count, and each awaited step of PDF.js or of the browser's scheduler is a
 * separate transition whose outcome the caller supplies. Blob URLs are
 * handles too. Nothing here is concurrent: interleavings are sequences of
 * transitions.
 */
module Preview {
  import opened Wrappers
  import opened Text
  import opened Base64

  const DataScheme: string := "data:"
  const PdfMediaType: string := "application/pdf;base64"
  const PdfDataUriPrefix: string := DataScheme + PdfMediaType + ","

  /** A URL handed to the browser: one made by `URL.createObjectURL` (a handle) or a data URI. */
  datatype Url = BlobUrl(handle: nat) | DataUrl(uri: string)

  /** The memo's `{ viewUrl, newTabUrl, byteArray }`; None stands for `null`. */
  datatype Payload = Payload(viewUrl: Option<Url>, newTabUrl: Option<string>, byteArray: Option<seq<byte>>)

  /** The base64 body: after a `data:` scheme, what follows the first comma; then no whitespace. */
  function CleanBody(base64: string): (b64: string)
    ensures NoSpace(b64)
  {
    var body :=
      if StartsWith(base64, DataScheme) then
        match Find(base64, ",")
        case Some(commaIdx) => base64[commaIdx + 1..]
        case None => base64
      else base64;
    RemoveSpaces(body)
  }

  /** `atob`: the decoded bytes as a binary string, one character per byte, or None where it throws. */
  function Atob(b64: string): (byteChars: Option<string>)
    ensures byteChars.Some? ==> forall i :: 0 <= i < |byteChars.value| ==> byteChars.value[i] as int < 256
  {
    match ForgivingDecode(b64)
    case None => None
    case Some(bytes) => Some(seq(|bytes|, i requires 0 <= i < |bytes| => bytes[i] as int as char))
  }

  /** `new Uint8Array(byteNumbers)` where `byteNumbers[i]` is `byteChars.charCodeAt(i)`. */
  function CharCodes(byteChars: string): (bytes: seq<byte>)
    ensures |bytes| == |byteChars|
    ensures forall i :: 0 <= i < |bytes| ==> bytes[i] as int == byteChars[i] as int % 256
  {
    seq(|byteChars|, i requires 0 <= i < |byteChars| => (byteChars[i] as int % 256) as byte)
  }

  /** The array-filling loop of the memo and the typed-array conversion after it. */
  method ByteArrayOf(byteChars: string) returns (byteArray: seq<byte>)
    ensures |byteArray| == |byteChars|
    ensures forall i :: 0 <= i < |byteArray| ==> byteArray[i] as int == byteChars[i] as int % 256
    ensures byteArray == CharCodes(byteChars)
  {
    var byteNumbers := new int[|byteChars|];
    for i := 0 to |byteChars|
      invariant forall j :: 0 <= j < i ==> byteNumbers[j] == byteChars[j] as int
    {
      byteNumbers[i] := byteChars[i] as int;
    }
    byteArray := seq(|byteChars|, j reads byteNumbers requires 0 <= j < byteNumbers.Length => (byteNumbers[j] % 256) as byte);
  }

  /**
   * The memo's computation step by step: the byte array is filled by the loop
   * of lines 30-34, and the result is the payload `Normalise` describes.
   */
  method Memo(base64: Option<string>, blobUrl: nat) returns (p: Payload)
    ensures p == Normalise(base64, blobUrl)
  {
    if base64.None? || base64.value == "" {
      return Payload(None, None, None);
    }
    var original := base64.value;
    var b64 := CleanBody(original);
    var byteChars := Atob(b64);
    if byteChars.Some? {
      var byteArray := ByteArrayOf(byteChars.value);
      var dataUrl := if StartsWith(original, DataScheme) then original else PdfDataUriPrefix + b64;
      NormaliseDecoded(original, blobUrl, byteChars.value);
      p := Payload(Some(BlobUrl(blobUrl)), Some(dataUrl), Some(byteArray));
    } else {
      var dataUrl := if StartsWith(original, DataScheme) then original else PdfDataUriPrefix + original;
      NormaliseFailed(original, blobUrl);
      p := Payload(Some(DataUrl(dataUrl)), Some(dataUrl), None);
    }
  }

  /**
   * The memo. `blobUrl` is the handle `URL.createObjectURL` would return, so
   * the caller allocates it. An absent or empty payload gives three nulls; a
   * payload that decodes gives a blob URL, the data URI and the bytes; one that
   * does not gives the data URI twice and no bytes.
   */
  function Normalise(base64: Option<string>, blobUrl: nat): (p: Payload)
    ensures p.newTabUrl.None? <==> base64.None? || base64.value == ""
    ensures p.newTabUrl.None? ==> p == Payload(None, None, None)
    ensures p.newTabUrl.Some? ==> StartsWith(p.newTabUrl.value, DataScheme)
    ensures p.byteArray.Some? ==> p.viewUrl == Some(BlobUrl(blobUrl))
    ensures p.byteArray.None? && p.newTabUrl.Some? ==> p.viewUrl == Some(DataUrl(p.newTabUrl.value))
    ensures p.byteArray.Some? <==> p.newTabUrl.Some? && Atob(CleanBody(base64.value)).Some?
  {
    if base64.None? || base64.value == "" then Payload(None, None, None)
    else
      var original := base64.value;
      var b64 := CleanBody(original);
      match Atob(b64)
      case Some(byteChars) =>
        var dataUrl := if StartsWith(original, DataScheme) then original else PdfDataUriPrefix + b64;
        assert StartsWith(dataUrl, DataScheme) by {
          assert StartsWith(PdfDataUriPrefix + b64, DataScheme);
        }
        Payload(Some(BlobUrl(blobUrl)), Some(dataUrl), Some(CharCodes(byteChars)))
      case None =>
        var dataUrl := if StartsWith(original, DataScheme) then original else PdfDataUriPrefix + original;
        assert StartsWith(dataUrl, DataScheme) by {
          assert StartsWith(PdfDataUriPrefix + original, DataScheme);
        }
        Payload(Some(DataUrl(dataUrl)), Some(dataUrl), None)
  }

  /** The memo of a payload whose cleaned body decodes. */
  lemma NormaliseDecoded(original: string, blobUrl: nat, byteChars: string)
    requires original != "" && Atob(CleanBody(original)) == Some(byteChars)
    ensures Normalise(Some(original), blobUrl)
         == Payload(Some(BlobUrl(blobUrl)),
                    Some(if StartsWith(original, DataScheme) then original else PdfDataUriPrefix + CleanBody(original)),
                    Some(CharCodes(byteChars)))
  {
  }

  /** The memo of a payload whose cleaned body does not decode. */
  lemma NormaliseFailed(original: string, blobUrl: nat)
    requires original != "" && Atob(CleanBody(original)).None?
    ensures var dataUrl := if StartsWith(original, DataScheme) then original else PdfDataUriPrefix + original;
      Normalise(Some(original), blobUrl) == Payload(Some(DataUrl(dataUrl)), Some(dataUrl), None)
  {
  }

  lemma CharCodesOfBinaryString(bytes: seq<byte>)
    ensures CharCodes(seq(|bytes|, i requires 0 <= i < |bytes| => bytes[i] as int as char)) == bytes
  {
  }

  lemma EncodeIsClean(bytes: seq<byte>)
    ensures NoSpace(Encode(bytes)) && !StartsWith(Encode(bytes), DataScheme)
    ensures CleanBody(Encode(bytes)) == Encode(bytes)
  {
    EncodeHasNoWhitespace(bytes);
    var s := Encode(bytes);
    if |s| >= 5 {
      assert s[..5][4] == s[4] != ':';
    }
    RemoveSpacesOfNoSpace(s);
  }

  /** The bytes of a payload the backend produced with `b64encode` come back unchanged. */
  lemma DecodesBackendEncoding(bytes: seq<byte>, blobUrl: nat)
    requires |bytes| > 0
    ensures Normalise(Some(Encode(bytes)), blobUrl)
         == Payload(Some(BlobUrl(blobUrl)), Some(PdfDataUriPrefix + Encode(bytes)), Some(bytes))
  {
    EncodeIsClean(bytes);
    DecodeEncode(bytes);
    CharCodesOfBinaryString(bytes);
  }

  /** After a `data:` scheme whose media type has no comma, the body is what follows that comma. */
  lemma CleanBodyOfDataUri(mediaType: string, body: string)
    requires ',' !in mediaType
    ensures CleanBody(DataScheme + mediaType + "," + body) == RemoveSpaces(body)
  {
    var s := DataScheme + mediaType + "," + body;
    var k := |DataScheme + mediaType|;
    assert OccursAt(s, ",", k);
    forall j | 0 <= j < k ensures !OccursAt(s, ",", j) {
      assert s[j] != ',' by {
        if j < |DataScheme| {
          assert s[j] == DataScheme[j];
        } else {
          assert s[j] == mediaType[j - |DataScheme|];
        }
      }
      assert s[j..j + 1][0] == s[j];
    }
    assert StartsWith(s, DataScheme);
    assert Find(s, ",") == Some(k);
    assert s[k + 1..] == body;
  }

  /**
   * Without a `data:` scheme, or without a comma after it, the body is the
   * whole payload, with whitespace removed.
   */
  lemma CleanBodyWhole(s: string)
    requires !StartsWith(s, DataScheme) || !Contains(s, ",")
    ensures CleanBody(s) == RemoveSpaces(s)
  {
  }

  /**
   * The backend's encoding broken up by whitespace anywhere (into lines, say)
   * and sent bare decodes to the original bytes; the new-tab URL wraps the
   * encoding without its whitespace.
   */
  lemma BareWhitespaceRoundTrip(bytes: seq<byte>, x: string, blobUrl: nat)
    requires !StartsWith(x, DataScheme) && RemoveSpaces(x) == Encode(bytes)
    ensures x != "" ==>
      Normalise(Some(x), blobUrl)
      == Payload(Some(BlobUrl(blobUrl)), Some(PdfDataUriPrefix + Encode(bytes)), Some(bytes))
  {
    CleanBodyWhole(x);
    DecodeEncode(bytes);
    CharCodesOfBinaryString(bytes);
    if x != "" {
      var byteChars := seq(|bytes|, i requires 0 <= i < |bytes| => bytes[i] as int as char);
      assert Atob(CleanBody(x)) == Some(byteChars);
      NormaliseDecoded(x, blobUrl, byteChars);
    }
  }

  /**
   * A data-URI payload with whitespace anywhere in its body decodes to the same
   * bytes as the bare body without whitespace.
   */
  lemma PrefixAndWhitespaceIgnored(mediaType: string, body: string, blobUrl: nat)
    requires ',' !in mediaType
    requires RemoveSpaces(body) != "" && !StartsWith(RemoveSpaces(body), DataScheme)
    ensures Normalise(Some(DataScheme + mediaType + "," + body), blobUrl).byteArray
         == Normalise(Some(RemoveSpaces(body)), blobUrl).byteArray
  {
    CleanBodyOfDataUri(mediaType, body);
    RemoveSpacesIdempotent(body);
  }

  lemma CleanBodyOfPdfDataUri(body: string)
    ensures CleanBody(PdfDataUriPrefix + body) == RemoveSpaces(body)
  {
    assert ',' !in PdfMediaType;
    CleanBodyOfDataUri(PdfMediaType, body);
  }

  /**
   * The backend's encoding inside the data URI the component itself builds, with
   * whitespace anywhere in it, decodes to the original bytes, and the new-tab URL
   * is the payload as given.
   */
  lemma DataUriRoundTrip(bytes: seq<byte>, body: string, blobUrl: nat)
    requires RemoveSpaces(body) == Encode(bytes)
    ensures Normalise(Some(PdfDataUriPrefix + body), blobUrl)
         == Payload(Some(BlobUrl(blobUrl)), Some(PdfDataUriPrefix + body), Some(bytes))
  {
    CleanBodyOfPdfDataUri(body);
    DecodeEncode(bytes);
    var byteChars := seq(|bytes|, i requires 0 <= i < |bytes| => bytes[i] as int as char);
    assert Atob(Encode(bytes)) == Some(byteChars);
    CharCodesOfBinaryString(bytes);
    assert StartsWith(PdfDataUriPrefix + body, DataScheme);
    NormaliseDecoded(PdfDataUriPrefix + body, blobUrl, byteChars);
  }

  /**
   * A payload holding a character that is neither whitespace, nor '=', nor in
   * the base64 alphabet does not decode: no bytes, and both URLs are the data
   * URI the component builds around the original string.
   */
  lemma GarbageFallsBack(s: string, k: nat, blobUrl: nat)
    requires k < |s| && !IsSpace(s[k]) && !InAlphabet(s[k]) && s[k] != '='
    requires !StartsWith(s, DataScheme)
    ensures Normalise(Some(s), blobUrl)
         == Payload(Some(DataUrl(PdfDataUriPrefix + s)), Some(PdfDataUriPrefix + s), None)
  {
    RemoveSpacesKeeps(s, k);
    var b64 := RemoveSpaces(s);
    assert CleanBody(s) == b64;
    var m :| 0 <= m < |b64| && b64[m] == s[k];
    DecodeRejectsForeign(b64, m);
    NormaliseFailed(s, blobUrl);
  }

  // ---------------------------------------------------------------------------
  // Render controller
  // ---------------------------------------------------------------------------

  /** A child of the canvas container: a page's canvas, tagged with the generation that drew it, or a spacer. */
  datatype Node = Canvas(generation: nat, page: nat) | Spacer

  /** Pages 1..n of generation `g`, each canvas followed by its spacer. */
  function Surfaces(g: nat, n: nat): (s: seq<Node>)
    ensures |s| == 2 * n
  {
    if n == 0 then [] else Surfaces(g, n - 1) + [Canvas(g, n), Spacer]
  }

  /** The 2i-th node is page i+1's canvas and the next one its spacer. */
  lemma {:induction false} SurfacesAt(g: nat, n: nat, i: nat)
    requires i < n
    ensures Surfaces(g, n)[2 * i] == Canvas(g, i + 1)
    ensures Surfaces(g, n)[2 * i + 1] == Spacer
  {
    if i < n - 1 {
      SurfacesAt(g, n - 1, i);
    }
  }

  /** Every canvas in Surfaces(g, n) belongs to generation g, and pages ascend. */
  lemma SurfacesGeneration(g: nat, n: nat)
    ensures forall i :: 0 <= i < 2 * n && i % 2 == 0 ==> Surfaces(g, n)[i] == Canvas(g, i / 2 + 1)
    ensures forall i :: 0 <= i < 2 * n && i % 2 == 1 ==> Surfaces(g, n)[i] == Spacer
  {
    forall i | 0 <= i < 2 * n
      ensures i % 2 == 0 ==> Surfaces(g, n)[i] == Canvas(g, i / 2 + 1)
      ensures i % 2 == 1 ==> Surfaces(g, n)[i] == Spacer
    {
      SurfacesAt(g, n, i / 2);
    }
  }

  /** How an awaited promise settled: with a value, or rejected with an error's message. */
  datatype Settled<T> = Resolved(value: T) | Rejected(message: string)

  const InlineFailurePrefix: string := "Could not render preview inline. "

  /** `/Worker was destroyed|terminat/i.test(msg)`: the error came from tearing the worker down. */
  predicate IsCancellation(message: string) {
    ContainsIgnoringCase(message, "worker was destroyed") || ContainsIgnoringCase(message, "terminat")
  }

  /** `renderError` after the catch block: kept for a cancellation, otherwise the failure message. */
  function ErrorAfterCatch(prior: Option<string>, message: string): (r: Option<string>)
    ensures IsCancellation(message) ==> r == prior
    ensures !IsCancellation(message) ==> r.Some? && StartsWith(r.value, InlineFailurePrefix)
                                         && r.value[|InlineFailurePrefix|..] == message
  {
    if IsCancellation(message) then prior else Some(InlineFailurePrefix + message)
  }

  /** A message holding `literal`, whose lower case begins with `pat`, is found to contain `pat`. */
  lemma ContainsLiteral(before: string, literal: string, pat: string, after: string)
    requires |pat| <= |literal| && Lower(literal)[..|pat|] == pat
    ensures ContainsIgnoringCase(before + literal + after, pat)
  {
    var rest := Lower(literal)[|pat|..];
    assert Lower(literal) == pat + rest;
    LowerAppend(before + literal, after);
    LowerAppend(before, literal);
    assert Lower(before + literal + after) == Lower(before) + pat + (rest + Lower(after));
    ContainsAtPosition(Lower(before), pat, rest + Lower(after));
  }

  /** PDF.js's message for a destroyed worker, wherever it stands, is a cancellation. */
  lemma WorkerDestroyedIsCancellation(before: string, after: string)
    ensures IsCancellation(before + "Worker was destroyed" + after)
  {
    ContainsLiteral(before, "Worker was destroyed", "worker was destroyed", after);
  }

  /** PDF.js's message for a terminated worker, wherever it stands, is a cancellation. */
  lemma WorkerTerminatedIsCancellation(before: string, after: string)
    ensures IsCancellation(before + "Worker was terminated" + after)
  {
    assert before + "Worker was terminated" + after == (before + "Worker was ") + "terminated" + after;
    ContainsLiteral(before + "Worker was ", "terminated", "terminat", after);
  }

  /** The test ignores case: a message and its lower-case form are classified alike. */
  lemma CancellationIgnoresCase(message: string)
    ensures IsCancellation(Lower(message)) <==> IsCancellation(message)
  {
    LowerIdempotent(message);
  }

  /** Where a suspended `renderPdf` call is waiting. */
  datatype Stage =
    | AwaitingDocument   // `await loadingTask.promise`
    | AwaitingFrame      // `await new Promise(res => requestAnimationFrame(...))`
    | AwaitingPage       // `await pdf.getPage(pageNum)`
    | AwaitingRender     // `await page.render(...).promise`

  /** The locals of a suspended `renderPdf` call: where it waits, `pdf.numPages` and the loop's `pageNum`. */
  datatype Run = Run(stage: Stage, numPages: nat, pageNum: nat)

  predicate RunShape(r: Run) {
    && r.pageNum >= 1
    && (r.stage.AwaitingDocument? || r.stage.AwaitingFrame? ==> r.pageNum == 1)
    && (r.stage.AwaitingPage? || r.stage.AwaitingRender? ==> r.pageNum <= r.numPages)
  }

  /** Every suspended run captured a generation between 1 and `current`, and is in a shape `renderPdf` reaches. */
  predicate RunsBelow(runs: map<nat, Run>, current: nat) {
    forall id :: id in runs ==> 1 <= id <= current && RunShape(runs[id])
  }

  /**
   * The container holds the first pages of generation `current`, as many as
   * that generation's run (when it is still suspended) has finished.
   */
  predicate DrawnSoFar(container: seq<Node>, current: nat, runs: map<nat, Run>) {
    && |container| % 2 == 0
    && container == Surfaces(current, |container| / 2)
    && (current in runs ==> |container| == 2 * (runs[current].pageNum - 1))
  }

  /** A run that captures the next generation keeps every run below the counter. */
  lemma RunsBelowStart(runs: map<nat, Run>, current: nat)
    requires RunsBelow(runs, current)
    ensures RunsBelow(runs[current + 1 := Run(AwaitingDocument, 0, 1)], current + 1)
    ensures DrawnSoFar([], current + 1, runs[current + 1 := Run(AwaitingDocument, 0, 1)])
  {
  }

  /** Appending the current run's page keeps the container in step with that run. */
  lemma DrawnSoFarAppend(container: seq<Node>, current: nat, runs: map<nat, Run>)
    requires DrawnSoFar(container, current, runs) && current in runs && RunShape(runs[current])
    ensures var r := runs[current];
      var drawn := container + [Canvas(current, r.pageNum), Spacer];
      && DrawnSoFar(drawn, current, runs - {current})
      && DrawnSoFar(drawn, current, runs[current := Run(AwaitingPage, r.numPages, r.pageNum + 1)])
  {
    var n := runs[current].pageNum;
    assert Surfaces(current, n) == Surfaces(current, n - 1) + [Canvas(current, n), Spacer];
  }

  /** The head of the page loop: None when it exits (past the last page, or superseded), else the `getPage` wait. */
  function LoopHead(myRenderId: nat, r: Run, currentId: nat): (next: Option<Run>)
    ensures next.Some? <==> r.pageNum <= r.numPages && myRenderId == currentId
    ensures next.Some? ==> next.value == Run(AwaitingPage, r.numPages, r.pageNum)
  {
    if r.pageNum > r.numPages then None
    else if myRenderId != currentId then None
    else Some(Run(AwaitingPage, r.numPages, r.pageNum))
  }

  class PreviewComponent {
    // The `base64` prop and the memo computed from it
    var base64: Option<string>
    var memo: Payload
    // objectUrlRef, the next handle URL.createObjectURL hands out, and the handles revoked so far, in order
    var objectUrl: Option<nat>
    var nextBlobUrl: nat
    var revoked: seq<nat>
    // renderIdRef, loadingTaskRef, the next loading-task handle, and the tasks whose destroy() was called
    var renderId: nat
    var loadingTask: Option<nat>
    var nextTask: nat
    var destroyed: seq<nat>
    // The canvas container's children, and the two state variables
    var container: seq<Node>
    var renderError: Option<string>
    var isRendering: bool
    // The render effect has run and its cleanup has not; the component is mounted
    var effectActive: bool
    var mounted: bool
    // The `renderPdf` calls suspended at an await, by the render ID each captured
    var runs: map<nat, Run>

    /**
     * The state React's effect ordering keeps: a loading task exists only while
     * the render effect is active; every suspended run has a generation no newer
     * than the counter; the container is the pages of the current generation
     * drawn so far, as many as the current run has finished.
     */
    ghost predicate Valid()
      reads this
    {
      && RunsBelow(runs, renderId)
      && (!effectActive ==> loadingTask == None)
      && (!mounted ==> !effectActive)
      && (loadingTask.Some? ==> loadingTask.value < nextTask)
      && (objectUrl.Some? ==> objectUrl.value < nextBlobUrl)
      && DrawnSoFar(container, renderId, runs)
    }

    /** Mounting: the memo for the first prop value, then the render effect. */
    constructor (b: Option<string>)
      ensures Valid() && mounted && effectActive
      ensures base64 == b && memo == Normalise(b, 0)
      ensures objectUrl == (if memo.byteArray.Some? then Some(0) else None)
      ensures nextBlobUrl == (if memo.byteArray.Some? then 1 else 0)
      ensures revoked == [] && destroyed == []
      ensures nextTask == (if memo.byteArray.Some? then 1 else 0)
      ensures memo.byteArray.None? ==>
        && renderId == 0 && runs == map[] && container == [] && !isRendering
        && renderError == None && loadingTask == None
      ensures memo.byteArray.Some? ==>
        renderId == 1 && runs == map[1 := Run(AwaitingDocument, 0, 1)] && container == []
        && isRendering && renderError == None && loadingTask == Some(0)
    {
      base64 := None;
      memo := Payload(None, None, None);
      objectUrl := None;
      nextBlobUrl := 0;
      revoked := [];
      renderId := 0;
      loadingTask := None;
      nextTask := 0;
      destroyed := [];
      container := [];
      renderError := None;
      isRendering := false;
      effectActive := false;
      mounted := true;
      runs := map[];
      new;
      if b != None {
        NormalisePayload(b);
      }
      RenderPdf();
    }

    /**
     * The memo (lines 19-46), recomputed when the prop changes. A payload that
     * decodes records its new blob URL in objectUrlRef, overwriting the one
     * recorded before; no other path touches objectUrlRef.
     */
    method NormalisePayload(b: Option<string>)
      requires Valid() && mounted
      modifies this
      ensures Valid() && mounted && base64 == b
      ensures b == old(base64) ==> memo == old(memo) && objectUrl == old(objectUrl) && nextBlobUrl == old(nextBlobUrl)
      ensures b != old(base64) ==>
        && memo == Normalise(b, old(nextBlobUrl))
        && objectUrl == (if memo.byteArray.Some? then Some(old(nextBlobUrl)) else old(objectUrl))
        && nextBlobUrl == (if memo.byteArray.Some? then old(nextBlobUrl) + 1 else old(nextBlobUrl))
      ensures revoked == old(revoked) && effectActive == old(effectActive)
      ensures renderId == old(renderId) && loadingTask == old(loadingTask) && nextTask == old(nextTask)
      ensures destroyed == old(destroyed) && container == old(container) && runs == old(runs)
      ensures renderError == old(renderError) && isRendering == old(isRendering)
    {
      if b == base64 {
        return;
      }
      var u := nextBlobUrl;
      var p := Memo(b, u);
      base64, memo := b, p;
      if p.byteArray.Some? {
        nextBlobUrl, objectUrl := u + 1, Some(u);
      }
    }

    /**
     * The render effect and `renderPdf` up to its first await (lines 61-81).
     * Without bytes nothing happens. Otherwise the run bumps the counter and
     * captures it, clears the container, opens the document and waits for it.
     */
    method RenderPdf()
      requires Valid() && mounted && !effectActive
      modifies this
      ensures Valid() && mounted && effectActive
      ensures base64 == old(base64) && memo == old(memo) && objectUrl == old(objectUrl)
      ensures nextBlobUrl == old(nextBlobUrl) && revoked == old(revoked) && destroyed == old(destroyed)
      ensures memo.byteArray.None? ==>
        && renderId == old(renderId) && container == old(container) && runs == old(runs)
        && loadingTask == old(loadingTask) && nextTask == old(nextTask)
        && renderError == old(renderError) && isRendering == old(isRendering)
      ensures memo.byteArray.Some? ==>
        && renderId == old(renderId) + 1
        && isRendering && renderError == None
        && container == []
        && loadingTask == Some(old(nextTask)) && nextTask == old(nextTask) + 1
        && runs == old(runs)[renderId := Run(AwaitingDocument, 0, 1)]
    {
      effectActive := true;
      if memo.byteArray.None? {
        return;
      }
      // React has run the previous effect's cleanup, which nulls loadingTaskRef,
      // so the destroy branch of lines 69-72 is never taken.
      assert loadingTask == None;
      StartRun();
    }

    /** Lines 62-81 once the byte array is there and no loading task is left. */
    method StartRun()
      requires Valid() && loadingTask == None && effectActive
      modifies this
      ensures Valid()
      ensures renderId == old(renderId) + 1 && isRendering && renderError == None && container == []
      ensures loadingTask == Some(old(nextTask)) && nextTask == old(nextTask) + 1
      ensures runs == old(runs)[renderId := Run(AwaitingDocument, 0, 1)]
      ensures base64 == old(base64) && memo == old(memo) && objectUrl == old(objectUrl) && mounted == old(mounted)
      ensures nextBlobUrl == old(nextBlobUrl) && revoked == old(revoked) && destroyed == old(destroyed)
      ensures effectActive == old(effectActive)
    {
      var myRenderId := renderId + 1;
      RunsBelowStart(runs, renderId);
      isRendering, renderError, renderId, container := true, None, myRenderId, [];
      loadingTask, nextTask := Some(nextTask), nextTask + 1;
      runs := runs[myRenderId := Run(AwaitingDocument, 0, 1)];
    }

    /** The render effect's cleanup (lines 125-136): bump the counter, destroy the task, clear the container. */
    method CleanupRender()
      requires Valid() && effectActive
      modifies this
      ensures Valid() && !effectActive
      ensures renderId == old(renderId) + 1
      ensures loadingTask == None
      ensures destroyed == old(destroyed) + (if old(loadingTask).Some? then [old(loadingTask).value] else [])
      ensures container == []
      ensures base64 == old(base64) && memo == old(memo) && objectUrl == old(objectUrl)
      ensures nextBlobUrl == old(nextBlobUrl) && revoked == old(revoked) && mounted == old(mounted)
      ensures nextTask == old(nextTask) && runs == old(runs)
      ensures renderError == old(renderError) && isRendering == old(isRendering)
    {
      var task := loadingTask;
      effectActive, renderId, container := false, renderId + 1, [];
      if task.Some? {
        destroyed, loadingTask := destroyed + [task.value], None;
      }
    }

    /**
     * A new `base64` prop. The memo is recomputed; when the byte array it yields
     * is a different object (anything but null twice), React runs the render
     * effect's cleanup and then the effect again.
     */
    method ReceiveProp(b: Option<string>) returns (rerun: bool)
      requires Valid() && mounted && effectActive
      modifies this
      ensures Valid() && mounted && effectActive && base64 == b
      ensures b == old(base64) ==> memo == old(memo) && objectUrl == old(objectUrl)
      ensures b != old(base64) ==>
        && memo == Normalise(b, old(nextBlobUrl))
        && objectUrl == (if memo.byteArray.Some? then Some(old(nextBlobUrl)) else old(objectUrl))
      ensures rerun <==> b != old(base64) && (old(memo).byteArray.Some? || memo.byteArray.Some?)
      ensures revoked == old(revoked)
      ensures nextBlobUrl == (if b != old(base64) && memo.byteArray.Some? then old(nextBlobUrl) + 1 else old(nextBlobUrl))
      ensures nextTask == (if rerun && memo.byteArray.Some? then old(nextTask) + 1 else old(nextTask))
      ensures !rerun ==> loadingTask == old(loadingTask) && destroyed == old(destroyed)
      ensures !rerun ==> renderId == old(renderId) && container == old(container) && runs == old(runs)
                         && isRendering == old(isRendering) && renderError == old(renderError)
      ensures rerun ==> destroyed == old(destroyed) + (if old(loadingTask).Some? then [old(loadingTask).value] else [])
      ensures rerun && memo.byteArray.None? ==>
        && renderId == old(renderId) + 1 && container == [] && runs == old(runs) && loadingTask == None
        && isRendering == old(isRendering) && renderError == old(renderError)
      ensures rerun && memo.byteArray.Some? ==>
        && renderId == old(renderId) + 2 && container == [] && isRendering && renderError == None
        && runs == old(runs)[renderId := Run(AwaitingDocument, 0, 1)]
        && loadingTask == Some(old(nextTask))
    {
      var before, changed := memo.byteArray, b != base64;
      NormalisePayload(b);
      rerun := changed && (before.Some? || memo.byteArray.Some?);
      if rerun {
        CleanupRender();
        RenderPdf();
      }
    }

    /** Shared by every exit of `renderPdf`: the catch block (when there is an error) and the finally block. */
    method Finish(id: nat, error: Option<string>)
      requires Valid() && id in runs
      modifies this
      ensures Valid()
      ensures runs == old(runs) - {id} && !isRendering
      ensures renderError == (if error.Some? then ErrorAfterCatch(old(renderError), error.value) else old(renderError))
      ensures base64 == old(base64) && memo == old(memo) && objectUrl == old(objectUrl)
      ensures nextBlobUrl == old(nextBlobUrl) && revoked == old(revoked) && mounted == old(mounted)
      ensures renderId == old(renderId) && loadingTask == old(loadingTask) && nextTask == old(nextTask)
      ensures destroyed == old(destroyed) && container == old(container) && effectActive == old(effectActive)
    {
      if error.Some? {
        renderError := ErrorAfterCatch(renderError, error.value);
      }
      isRendering := false;
      runs := runs - {id};
    }

    /** `await loadingTask.promise` settles (line 81); on success the run waits one animation frame. */
    method DocumentSettled(id: nat, outcome: Settled<nat>)
      requires Valid() && id in runs && runs[id].stage == AwaitingDocument
      modifies this
      ensures Valid()
      ensures outcome.Resolved? ==> runs == old(runs)[id := Run(AwaitingFrame, outcome.value, 1)]
                                    && isRendering == old(isRendering) && renderError == old(renderError)
      ensures outcome.Rejected? ==> runs == old(runs) - {id} && !isRendering
                                    && renderError == ErrorAfterCatch(old(renderError), outcome.message)
      ensures container == old(container) && renderId == old(renderId)
      ensures base64 == old(base64) && memo == old(memo) && objectUrl == old(objectUrl)
      ensures nextBlobUrl == old(nextBlobUrl) && revoked == old(revoked) && mounted == old(mounted)
      ensures loadingTask == old(loadingTask) && nextTask == old(nextTask)
      ensures destroyed == old(destroyed) && effectActive == old(effectActive)
    {
      match outcome
      case Rejected(message) =>
        Finish(id, Some(message));
      case Resolved(numPages) =>
        runs := runs[id := Run(AwaitingFrame, numPages, 1)];
    }

    /** The animation frame has passed (line 85): the page loop starts at page 1. */
    method FrameElapsed(id: nat)
      requires Valid() && id in runs && runs[id].stage == AwaitingFrame
      modifies this
      ensures Valid()
      ensures LoopHead(id, old(runs[id]), renderId).Some? ==>
        runs == old(runs)[id := Run(AwaitingPage, old(runs[id]).numPages, 1)] && isRendering == old(isRendering)
      ensures LoopHead(id, old(runs[id]), renderId).None? ==> runs == old(runs) - {id} && !isRendering
      ensures renderError == old(renderError) && container == old(container) && renderId == old(renderId)
      ensures base64 == old(base64) && memo == old(memo) && objectUrl == old(objectUrl)
      ensures nextBlobUrl == old(nextBlobUrl) && revoked == old(revoked) && mounted == old(mounted)
      ensures loadingTask == old(loadingTask) && nextTask == old(nextTask)
      ensures destroyed == old(destroyed) && effectActive == old(effectActive)
    {
      var next := LoopHead(id, runs[id], renderId);
      if next.None? {
        Finish(id, None);
      } else {
        runs := runs[id := next.value];
      }
    }

    /** `await pdf.getPage(pageNum)` settles (line 90); on success the page's render is requested. */
    method PageSettled(id: nat, outcome: Settled<()>)
      requires Valid() && id in runs && runs[id].stage == AwaitingPage
      modifies this
      ensures Valid()
      ensures outcome.Resolved? ==>
        runs == old(runs)[id := old(runs[id]).(stage := AwaitingRender)]
        && isRendering == old(isRendering) && renderError == old(renderError)
      ensures outcome.Rejected? ==> runs == old(runs) - {id} && !isRendering
                                    && renderError == ErrorAfterCatch(old(renderError), outcome.message)
      ensures container == old(container) && renderId == old(renderId)
      ensures base64 == old(base64) && memo == old(memo) && objectUrl == old(objectUrl)
      ensures nextBlobUrl == old(nextBlobUrl) && revoked == old(revoked) && mounted == old(mounted)
      ensures loadingTask == old(loadingTask) && nextTask == old(nextTask)
      ensures destroyed == old(destroyed) && effectActive == old(effectActive)
    {
      match outcome
      case Rejected(message) =>
        Finish(id, Some(message));
      case Resolved(_) =>
        runs := runs[id := runs[id].(stage := AwaitingRender)];
    }

    /**
     * `await page.render(...).promise` settles (line 100). A run that is still
     * current appends its canvas and a spacer and goes round the loop; a
     * superseded one breaks out without touching the container.
     */
    method PageRendered(id: nat, outcome: Settled<()>)
      requires Valid() && id in runs && runs[id].stage == AwaitingRender
      modifies this
      ensures Valid()
      ensures outcome.Rejected? ==> runs == old(runs) - {id} && !isRendering && container == old(container)
                                    && renderError == ErrorAfterCatch(old(renderError), outcome.message)
      ensures outcome.Resolved? && id != old(renderId) ==>
        runs == old(runs) - {id} && !isRendering && container == old(container) && renderError == old(renderError)
      ensures outcome.Resolved? && id == old(renderId) ==>
        && container == old(container) + [Canvas(id, old(runs[id]).pageNum), Spacer]
        && renderError == old(renderError)
        && (old(runs[id]).pageNum < old(runs[id]).numPages ==>
              runs == old(runs)[id := Run(AwaitingPage, old(runs[id]).numPages, old(runs[id]).pageNum + 1)]
              && isRendering == old(isRendering))
        && (old(runs[id]).pageNum == old(runs[id]).numPages ==> runs == old(runs) - {id} && !isRendering)
      ensures renderId == old(renderId)
      ensures base64 == old(base64) && memo == old(memo) && objectUrl == old(objectUrl)
      ensures nextBlobUrl == old(nextBlobUrl) && revoked == old(revoked) && mounted == old(mounted)
      ensures loadingTask == old(loadingTask) && nextTask == old(nextTask)
      ensures destroyed == old(destroyed) && effectActive == old(effectActive)
    {
      var r := runs[id];
      match outcome
      case Rejected(message) =>
        Finish(id, Some(message));
      case Resolved(_) =>
        if id != renderId {
          Finish(id, None);
        } else {
          AppendPage(id);
        }
    }

    /** Lines 101-105 and the loop head after them, for the run that is still current. */
    method AppendPage(id: nat)
      requires Valid() && id in runs && runs[id].stage == AwaitingRender && id == renderId
      modifies this
      ensures Valid()
      ensures container == old(container) + [Canvas(id, old(runs[id]).pageNum), Spacer]
      ensures old(runs[id]).pageNum < old(runs[id]).numPages ==>
        runs == old(runs)[id := Run(AwaitingPage, old(runs[id]).numPages, old(runs[id]).pageNum + 1)]
        && isRendering == old(isRendering)
      ensures old(runs[id]).pageNum == old(runs[id]).numPages ==> runs == old(runs) - {id} && !isRendering
      ensures renderError == old(renderError) && renderId == old(renderId)
      ensures base64 == old(base64) && memo == old(memo) && objectUrl == old(objectUrl)
      ensures nextBlobUrl == old(nextBlobUrl) && revoked == old(revoked) && mounted == old(mounted)
      ensures loadingTask == old(loadingTask) && nextTask == old(nextTask)
      ensures destroyed == old(destroyed) && effectActive == old(effectActive)
    {
      var r := runs[id];
      var drawn := container + [Canvas(id, r.pageNum), Spacer];
      DrawnSoFarAppend(container, id, runs);
      if r.pageNum + 1 > r.numPages {
        container, isRendering, runs := drawn, false, runs - {id};
      } else {
        container, runs := drawn, runs[id := Run(AwaitingPage, r.numPages, r.pageNum + 1)];
      }
    }

    /**
     * Unmounting: the first effect's cleanup revokes the blob URL recorded in
     * objectUrlRef, if any, and nulls it (lines 50-55); then the render effect's
     * cleanup runs.
     */
    method Unmount()
      requires Valid() && mounted
      modifies this
      ensures Valid() && !mounted && !effectActive
      ensures objectUrl == None
      ensures revoked == old(revoked) + (if old(objectUrl).Some? then [old(objectUrl).value] else [])
      ensures old(effectActive) ==>
        && renderId == old(renderId) + 1 && container == [] && loadingTask == None
        && destroyed == old(destroyed) + (if old(loadingTask).Some? then [old(loadingTask).value] else [])
      ensures !old(effectActive) ==>
        && renderId == old(renderId) && container == old(container)
        && loadingTask == old(loadingTask) && destroyed == old(destroyed)
      ensures base64 == old(base64) && memo == old(memo) && nextBlobUrl == old(nextBlobUrl)
      ensures nextTask == old(nextTask) && runs == old(runs)
      ensures renderError == old(renderError) && isRendering == old(isRendering)
    {
      if objectUrl.Some? {
        revoked := revoked + [objectUrl.value];
        objectUrl := None;
      }
      if effectActive {
        CleanupRender();
      }
      mounted := false;
    }
  }

  /** The remaining pages of the current run, each fetched and rendered without interruption. */
  method RenderRemainingPages(p: PreviewComponent, id: nat, ghost n: nat)
    requires p.Valid() && p.renderId == id
    requires id in p.runs ==> p.runs[id].stage == AwaitingPage && p.runs[id].numPages == n
    requires id !in p.runs ==> p.container == Surfaces(id, n) && !p.isRendering
    modifies p
    ensures p.Valid() && p.renderId == id && id !in p.runs
    ensures p.container == Surfaces(id, n) && !p.isRendering && p.renderError == old(p.renderError)
    ensures p.revoked == old(p.revoked) && p.objectUrl == old(p.objectUrl) && p.mounted == old(p.mounted)
    ensures p.effectActive == old(p.effectActive) && p.memo == old(p.memo)
  {
    while id in p.runs
      invariant p.Valid() && p.renderId == id
      invariant id in p.runs ==> p.runs[id].stage == AwaitingPage && p.runs[id].numPages == n
      invariant id !in p.runs ==> p.container == Surfaces(id, n) && !p.isRendering
      invariant p.renderError == old(p.renderError)
      invariant p.revoked == old(p.revoked) && p.objectUrl == old(p.objectUrl) && p.mounted == old(p.mounted)
      invariant p.effectActive == old(p.effectActive) && p.memo == old(p.memo)
      decreases if id in p.runs then n + 1 - p.runs[id].pageNum else 0
    {
      p.PageSettled(id, Resolved(()));
      p.PageRendered(id, Resolved(()));
    }
  }

  /** Mounting with a payload the backend encoded: one run waits for the document. */
  method Mount(bytes: seq<byte>) returns (p: PreviewComponent)
    requires |bytes| > 0
    ensures fresh(p) && p.Valid() && p.mounted && p.effectActive
    ensures p.memo == Payload(Some(BlobUrl(0)), Some(PdfDataUriPrefix + Encode(bytes)), Some(bytes))
    ensures p.base64 == Some(Encode(bytes)) && p.objectUrl == Some(0) && p.nextBlobUrl == 1 && p.revoked == []
    ensures p.renderId == 1 && p.runs == map[1 := Run(AwaitingDocument, 0, 1)] && p.container == []
    ensures p.isRendering && p.renderError == None && p.loadingTask == Some(0) && p.destroyed == []
  {
    DecodesBackendEncoding(bytes, 0);
    p := new PreviewComponent(Some(Encode(bytes)));
  }

  /** A payload the backend encoded, rendered with nothing interrupting: n canvases and n spacers, in page order. */
  method UninterruptedRender(bytes: seq<byte>, numPages: nat)
    returns (surfaces: seq<Node>, rendering: bool, error: Option<string>)
    requires |bytes| > 0
    ensures surfaces == Surfaces(1, numPages)
    ensures !rendering && error == None
  {
    var p := Mount(bytes);
    p.DocumentSettled(1, Resolved(numPages));
    p.FrameElapsed(1);
    RenderRemainingPages(p, 1, numPages);
    surfaces, rendering, error := p.container, p.isRendering, p.renderError;
  }

  lemma EncodeInjective(a: seq<byte>, b: seq<byte>)
    requires a != b
    ensures Encode(a) != Encode(b)
  {
    DecodeEncode(a);
    DecodeEncode(b);
  }

  /**
   * A second payload arrives while the first run waits for its first page's
   * render; then that render completes. The component moves to generation 3
   * (one bump for the cleanup, one for the new run) and the first run breaks
   * out without appending, yet ends the "rendering" state.
   */
  method Supersede(first: seq<byte>, second: seq<byte>, firstPages: nat) returns (p: PreviewComponent)
    requires |first| > 0 && |second| > 0 && first != second && firstPages >= 1
    ensures fresh(p) && p.Valid() && p.mounted && p.effectActive
    ensures p.renderId == 3 && p.runs == map[3 := Run(AwaitingDocument, 0, 1)] && p.container == []
    ensures !p.isRendering && p.renderError == None
    ensures p.objectUrl == Some(1) && p.revoked == [] && p.destroyed == [0]
  {
    DecodesBackendEncoding(second, 1);
    EncodeInjective(first, second);
    p := AwaitFirstRender(first, firstPages);
    var rerun := p.ReceiveProp(Some(Encode(second)));
    assert p.memo == Payload(Some(BlobUrl(1)), Some(PdfDataUriPrefix + Encode(second)), Some(second));
    assert rerun && p.renderId == 3 && p.runs == map[1 := Run(AwaitingRender, firstPages, 1), 3 := Run(AwaitingDocument, 0, 1)];
    p.PageRendered(1, Resolved(()));
    assert p.runs == map[3 := Run(AwaitingDocument, 0, 1)];
  }

  /** Mounting, then the document and the first page arrive: the first page's render is under way. */
  method AwaitFirstRender(bytes: seq<byte>, numPages: nat) returns (p: PreviewComponent)
    requires |bytes| > 0 && numPages >= 1
    ensures fresh(p) && p.Valid() && p.mounted && p.effectActive
    ensures p.memo == Payload(Some(BlobUrl(0)), Some(PdfDataUriPrefix + Encode(bytes)), Some(bytes))
    ensures p.base64 == Some(Encode(bytes)) && p.objectUrl == Some(0) && p.nextBlobUrl == 1 && p.revoked == []
    ensures p.renderId == 1 && p.runs == map[1 := Run(AwaitingRender, numPages, 1)] && p.container == []
    ensures p.isRendering && p.renderError == None && p.loadingTask == Some(0) && p.destroyed == []
  {
    p := Mount(bytes);
    p.DocumentSettled(1, Resolved(numPages));
    p.FrameElapsed(1);
    p.PageSettled(1, Resolved(()));
  }

  /**
   * Two payloads in quick succession. The container ends as the second
   * payload's pages only, and the first run has ended the "rendering" state
   * while the second was still at work. Unmounting revokes the second blob URL
   * only: the first one was overwritten in objectUrlRef and is never revoked.
   */
  method SupersededRender(first: seq<byte>, second: seq<byte>, firstPages: nat, secondPages: nat)
    returns (surfaces: seq<Node>, renderingAfterStale: bool, rendering: bool, revoked: seq<nat>)
    requires |first| > 0 && |second| > 0 && first != second && firstPages >= 1
    ensures surfaces == Surfaces(3, secondPages)
    ensures forall i :: 0 <= i < |surfaces| && surfaces[i].Canvas? ==> surfaces[i].generation == 3
    ensures !renderingAfterStale && !rendering
    ensures revoked == [1]
  {
    var p := Supersede(first, second, firstPages);
    renderingAfterStale := p.isRendering;
    p.DocumentSettled(3, Resolved(secondPages));
    p.FrameElapsed(3);
    RenderRemainingPages(p, 3, secondPages);
    surfaces, rendering := p.container, p.isRendering;
    SurfacesGeneration(3, secondPages);
    p.Unmount();
    revoked := p.revoked;
  }

  /**
   * Unmounting while a page is being rendered: the blob URL is revoked once,
   * the loading task is destroyed, and the render that completes afterwards
   * appends nothing.
   */
  method UnmountMidRender(bytes: seq<byte>, numPages: nat)
    returns (surfaces: seq<Node>, revoked: seq<nat>, destroyed: seq<nat>, inFlight: bool)
    requires |bytes| > 0 && numPages >= 1
    ensures surfaces == [] && revoked == [0] && destroyed == [0] && !inFlight
  {
    var p := AwaitFirstRender(bytes, numPages);
    p.Unmount();
    p.PageRendered(1, Resolved(()));
    surfaces, revoked, destroyed, inFlight := p.container, p.revoked, p.destroyed, p.runs != map[];
  }

  /**
   * Mounting with a payload that does not decode: no bytes, so `renderPdf`
   * returns at once; no run, no loading task, no error, and the fallback URL
   * is the data URI built around the payload.
   */
  method MountGarbage(s: string, k: nat)
    returns (bytes: Option<seq<byte>>, error: Option<string>, rendering: bool, inFlight: bool, view: Option<Url>)
    requires k < |s| && !IsSpace(s[k]) && !InAlphabet(s[k]) && s[k] != '='
    requires !StartsWith(s, DataScheme)
    ensures bytes == None && error == None && !rendering && !inFlight
    ensures view == Some(DataUrl(PdfDataUriPrefix + s))
  {
    GarbageFallsBack(s, k, 0);
    var p := new PreviewComponent(Some(s));
    bytes, error, rendering, inFlight, view := p.memo.byteArray, p.renderError, p.isRendering, p.runs != map[], p.memo.viewUrl;
  }

  /** Unmounting while the document loads: the destroyed worker's rejection shows no error. */
  method UnmountWhileLoading(bytes: seq<byte>) returns (error: Option<string>, rendering: bool)
    requires |bytes| > 0
    ensures error == None && !rendering
  {
    var p := Mount(bytes);
    p.Unmount();
    WorkerDestroyedIsCancellation("", "");
    assert "" + "Worker was destroyed" + "" == "Worker was destroyed";
    p.DocumentSettled(1, Rejected("Worker was destroyed"));
    error, rendering := p.renderError, p.isRendering;
  }

  /** A document the engine cannot open for another reason shows the inline failure message. */
  method FailedRender(bytes: seq<byte>, message: string) returns (error: Option<string>, rendering: bool)
    requires |bytes| > 0 && !IsCancellation(message)
    ensures error == Some(InlineFailurePrefix + message) && !rendering
  {
    var p := Mount(bytes);
    p.DocumentSettled(1, Rejected(message));
    error, rendering := p.renderError, p.isRendering;
  }
}
