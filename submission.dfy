/**
 * Submitting the signed documents: for every document in order, and for each
 * of its placements in store order, one upload of the document's bytes, the
 * signature image and the placement's page and geometry. The first upload
 * that reports an error ends the run.
 *
 * The upload itself is outside the model: `signFile` answers the k-th upload
 * of a run with its error field (no error, or an error text).
 */
module Submission {
  import opened Wrappers
  import opened Placements
  import opened Base64
  import opened Transcode

  /** Where a document's bytes are found. */
  datatype FileData =
    | Uint8Data(bytes: seq<byte>)   // a Uint8Array
    | ArrayData(values: seq<int>)   // a plain number array
    | OtherData                     // anything else, such as a serialised buffer object

  /** A document as the view holds it after preparation. */
  datatype ProcessedDoc = ProcessedDoc(
    id: string,
    userId: string,
    fileName: string,
    file: FileData,
    base64: Option<string>)

  /** The fields of one upload. The image is the signature's data URL. */
  datatype Bundle = Bundle(
    pdf: seq<byte>,
    fileName: string,
    image: string,
    userId: string,
    page: int,
    x: real,
    y: real,
    width: real,
    height: real,
    docId: string)

  datatype Outcome =
    | Rejected                    // no image or no placement: nothing attempted
    | Completed                   // every planned upload was made without error
    | UploadFailed(error: string) // an upload reported this error; the run stopped
    | Crashed                     // an exception ended the run

  /** The answer to the k-th upload of a run: its error field. */
  type SignFile = (nat, Bundle) -> Option<string>

  /** `if (result.error)`: an error that JavaScript treats as true. */
  predicate IsError(r: Option<string>) {
    r.Some? && r.value != ""
  }

  datatype PdfSource = PdfBytes(bytes: seq<byte>) | Unrecognised | Undecodable

  /** The document's bytes: the byte array, the number array reduced to
      bytes, or the decoded base 64 text; unrecognised when none of these is
      present, undecodable when `atob` would throw. */
  function PdfSourceOf(doc: ProcessedDoc): PdfSource {
    match doc.file
    case Uint8Data(bytes) => PdfBytes(bytes)
    case ArrayData(values) => PdfBytes(ToUint8(values))
    case OtherData =>
      if doc.base64.Some? && doc.base64.value != "" then
        match Decode(doc.base64.value)
        case Some(bytes) => PdfBytes(bytes)
        case None => Undecodable
      else Unrecognised
  }

  /** What happens for one (document, placement) pair. */
  datatype Step = Skip | Throw | Call(bundle: Bundle)

  /** One pair's step: skipped for unrecognised document data; an exception
      when the data cannot be decoded or the placement has no page (its page
      is turned into text); otherwise an upload of the pair's fields. */
  function StepFor(doc: ProcessedDoc, sig: SignaturePosition, image: string): Step {
    match PdfSourceOf(doc)
    case Unrecognised => Skip
    case Undecodable => Throw
    case PdfBytes(pdf) =>
      if sig.page.None? then Throw
      else Call(Bundle(pdf, if doc.fileName != "" then doc.fileName else "document.pdf", image,
                       doc.userId, sig.page.value, sig.x, sig.y, sig.width, sig.height, doc.id))
  }

  /** A pair is skipped exactly when the document's data is unrecognised and
      throws exactly when the data cannot be decoded or the placement has no
      page; an upload carries the document's bytes, ids and file name (or
      "document.pdf") and the placement's page and geometry. */
  lemma StepForCases(doc: ProcessedDoc, sig: SignaturePosition, image: string)
    ensures var st := StepFor(doc, sig, image);
            (st.Skip? <==> PdfSourceOf(doc).Unrecognised?) &&
            (st.Throw? <==> PdfSourceOf(doc).Undecodable? || (PdfSourceOf(doc).PdfBytes? && sig.page.None?))
    ensures var st := StepFor(doc, sig, image);
            st.Call? ==>
              st.bundle.pdf == PdfSourceOf(doc).bytes && st.bundle.image == image &&
              Some(st.bundle.page) == sig.page && st.bundle.x == sig.x && st.bundle.y == sig.y &&
              st.bundle.width == sig.width && st.bundle.height == sig.height &&
              st.bundle.docId == doc.id && st.bundle.userId == doc.userId &&
              st.bundle.fileName == (if doc.fileName != "" then doc.fileName else "document.pdf")
  {
  }

  /** One document paired with each of its placements. */
  function DocPairs(doc: ProcessedDoc, related: seq<SignaturePosition>)
    : (ps: seq<(ProcessedDoc, SignaturePosition)>)
    ensures |ps| == |related|
    ensures forall k | 0 <= k < |related| :: ps[k] == (doc, related[k])
  {
    seq(|related|, k requires 0 <= k < |related| => (doc, related[k]))
  }

  /** The pairs the run walks: documents in order, each with its own
      placements in store order. */
  function Pairs(docs: seq<ProcessedDoc>, sigs: seq<SignaturePosition>)
    : seq<(ProcessedDoc, SignaturePosition)>
  {
    if docs == [] then []
    else DocPairs(docs[0], ForDoc(sigs, docs[0].id)) + Pairs(docs[1..], sigs)
  }

  /** Walks the remaining pairs after the uploads `calls` already made. */
  function Run(steps: seq<(ProcessedDoc, SignaturePosition)>, image: string, signFile: SignFile,
               calls: seq<Bundle>): (Outcome, seq<Bundle>)
    decreases |steps|
  {
    if steps == [] then (Completed, calls)
    else
      match StepFor(steps[0].0, steps[0].1, image)
      case Skip => Run(steps[1..], image, signFile, calls)
      case Throw => (Crashed, calls)
      case Call(bundle) =>
        var result := signFile(|calls|, bundle);
        if IsError(result) then (UploadFailed(result.value), calls + [bundle])
        else Run(steps[1..], image, signFile, calls + [bundle])
  }

  /** A run only appends to the uploads already made, at most one per pair,
      and never ends as rejected. */
  lemma {:induction false} RunOnlyAppends(steps: seq<(ProcessedDoc, SignaturePosition)>, image: string,
                                          signFile: SignFile, calls: seq<Bundle>)
    ensures var r := Run(steps, image, signFile, calls);
            |calls| <= |r.1| <= |calls| + |steps| && r.1[..|calls|] == calls && !r.0.Rejected?
    decreases |steps|
  {
    if steps != [] {
      var st := StepFor(steps[0].0, steps[0].1, image);
      if st.Skip? {
        RunOnlyAppends(steps[1..], image, signFile, calls);
      } else if st.Call? {
        RunOnlyAppends(steps[1..], image, signFile, calls + [st.bundle]);
        assert (calls + [st.bundle])[..|calls|] == calls;
      }
    }
  }

  /** The whole submit: rejected without an image or without placements. */
  function SubmitResult(docs: seq<ProcessedDoc>, sigs: seq<SignaturePosition>, image: Option<string>,
                        signFile: SignFile): (Outcome, seq<Bundle>)
  {
    if !ImageLoaded(image) || |sigs| == 0 then (Rejected, [])
    else Run(Pairs(docs, sigs), image.value, signFile, [])
  }

  lemma DocPairsTail(doc: ProcessedDoc, related: seq<SignaturePosition>, j: nat,
                     rest: seq<(ProcessedDoc, SignaturePosition)>)
    requires j < |related|
    ensures (DocPairs(doc, related[j..]) + rest)[0] == (doc, related[j])
    ensures (DocPairs(doc, related[j..]) + rest)[1..] == DocPairs(doc, related[j + 1..]) + rest
  {
    assert DocPairs(doc, related[j..])[1..] == DocPairs(doc, related[j + 1..]);
  }

  /** One step of a run, by the kind of step its first pair makes. */
  lemma RunUnfold(steps: seq<(ProcessedDoc, SignaturePosition)>, image: string, signFile: SignFile,
                  calls: seq<Bundle>)
    requires steps != []
    ensures StepFor(steps[0].0, steps[0].1, image).Skip? ==>
              Run(steps, image, signFile, calls) == Run(steps[1..], image, signFile, calls)
    ensures StepFor(steps[0].0, steps[0].1, image).Throw? ==>
              Run(steps, image, signFile, calls) == (Crashed, calls)
    ensures StepFor(steps[0].0, steps[0].1, image).Call? ==>
              var bundle := StepFor(steps[0].0, steps[0].1, image).bundle;
              var reply := signFile(|calls|, bundle);
              Run(steps, image, signFile, calls) ==
                if IsError(reply) then (UploadFailed(reply.value), calls + [bundle])
                else Run(steps[1..], image, signFile, calls + [bundle])
  {
  }

  /** Builds one upload for a (document, placement) pair: picks the document's
      bytes by representation (decoding base 64 text into a fresh byte array),
      then writes the placement's fields, whose page is turned into text. */
  method PrepareUpload(doc: ProcessedDoc, sig: SignaturePosition, image: string) returns (step: Step)
    ensures step == StepFor(doc, sig, image)
  {
    var pdf: seq<byte>;
    match doc.file {
      case Uint8Data(bytes) =>
        pdf := bytes;
      case ArrayData(values) =>
        pdf := ToUint8(values);
      case OtherData =>
        if doc.base64.Some? && doc.base64.value != "" {
          var decoded := Base64ToBytes(doc.base64.value);
          if decoded.None? {
            return Throw;
          }
          pdf := decoded.value;
        } else {
          return Skip;
        }
    }
    if sig.page.None? {
      return Throw;
    }
    step := Call(Bundle(pdf, if doc.fileName != "" then doc.fileName else "document.pdf", image,
                        doc.userId, sig.page.value, sig.x, sig.y, sig.width, sig.height, doc.id));
  }

  /** The submit handler: nested loops over documents and their placements,
      skipping a document whose data is unrecognised and returning at the
      first exception or upload error. */
  method HandleSubmit(docs: seq<ProcessedDoc>, signatures: seq<SignaturePosition>,
                      signatureImage: Option<string>, signFile: SignFile)
    returns (outcome: Outcome, calls: seq<Bundle>)
    ensures (outcome, calls) == SubmitResult(docs, signatures, signatureImage, signFile)
    ensures outcome.Rejected? <==> !ImageLoaded(signatureImage) || |signatures| == 0
    ensures outcome.Rejected? ==> calls == []
  {
    if !ImageLoaded(signatureImage) || |signatures| == 0 {
      return Rejected, [];
    }
    var image := signatureImage.value;
    ghost var result := Run(Pairs(docs, signatures), image, signFile, []);
    calls := [];
    for i := 0 to |docs|
      invariant Run(Pairs(docs[i..], signatures), image, signFile, calls) == result
    {
      var doc := docs[i];
      assert docs[i..][0] == doc && docs[i..][1..] == docs[i + 1..];
      var relatedSignatures := ForDoc(signatures, doc.id);
      ghost var rest := Pairs(docs[i + 1..], signatures);
      assert relatedSignatures[0..] == relatedSignatures;
      for j := 0 to |relatedSignatures|
        invariant Run(DocPairs(doc, relatedSignatures[j..]) + rest, image, signFile, calls) == result
      {
        var sig := relatedSignatures[j];
        ghost var steps := DocPairs(doc, relatedSignatures[j..]) + rest;
        DocPairsTail(doc, relatedSignatures, j, rest);
        RunUnfold(steps, image, signFile, calls);
        var step := PrepareUpload(doc, sig, image);
        match step {
          case Skip =>
            continue;
          case Throw =>
            return Crashed, calls;
          case Call(bundle) =>
            var reply := signFile(|calls|, bundle);
            calls := calls + [bundle];
            if IsError(reply) {
              return UploadFailed(reply.value), calls;
            }
        }
      }
      assert relatedSignatures[|relatedSignatures|..] == [];
      assert DocPairs(doc, []) + rest == rest;
    }
    outcome := Completed;
  }

  // ---------------------------------------------------------------- properties of a run

  /** Every pair joins a document with one of that document's placements. */
  lemma {:induction false} PairsMatchDocuments(docs: seq<ProcessedDoc>, sigs: seq<SignaturePosition>)
    ensures forall p | p in Pairs(docs, sigs) :: p.0 in docs && p.1 in sigs && p.1.docId == p.0.id
  {
    if docs != [] {
      PairsMatchDocuments(docs[1..], sigs);
      forall p | p in Pairs(docs, sigs)
        ensures p.0 in docs && p.1 in sigs && p.1.docId == p.0.id
      {
        if p in DocPairs(docs[0], ForDoc(sigs, docs[0].id)) {
          var k :| 0 <= k < |ForDoc(sigs, docs[0].id)| && DocPairs(docs[0], ForDoc(sigs, docs[0].id))[k] == p;
          assert ForDoc(sigs, docs[0].id)[k] in ForDoc(sigs, docs[0].id);
        } else {
          assert p in Pairs(docs[1..], sigs);
        }
      }
    }
  }

  /** One document's pairs hold that document with each placement as often
      as the placements list holds it. */
  lemma {:induction false} DocPairsCounts(doc: ProcessedDoc, related: seq<SignaturePosition>)
    ensures forall d, s :: multiset(DocPairs(doc, related))[(d, s)] ==
                             if d == doc then multiset(related)[s] else 0
    decreases |related|, 1
  {
    if related != [] {
      forall d, s
        ensures multiset(DocPairs(doc, related))[(d, s)] == if d == doc then multiset(related)[s] else 0
      {
        DocPairsCountsStep(doc, related, d, s);
      }
    }
  }

  /** The inductive step of DocPairsCounts for one combination. */
  lemma {:induction false} DocPairsCountsStep(doc: ProcessedDoc, related: seq<SignaturePosition>,
                                              d: ProcessedDoc, s: SignaturePosition)
    requires related != []
    ensures multiset(DocPairs(doc, related))[(d, s)] == if d == doc then multiset(related)[s] else 0
    decreases |related|, 0
  {
    var tail := DocPairs(doc, related[1..]);
    assert multiset(tail)[(d, s)] == if d == doc then multiset(related[1..])[s] else 0 by {
      DocPairsCounts(doc, related[1..]);
    }
    assert multiset(DocPairs(doc, related)) == multiset([(doc, related[0])]) + multiset(tail) by {
      DocPairsCons(doc, related);
    }
    assert multiset(related) == multiset([related[0]]) + multiset(related[1..]) by {
      assert related == [related[0]] + related[1..];
    }
  }

  lemma DocPairsCons(doc: ProcessedDoc, related: seq<SignaturePosition>)
    requires related != []
    ensures DocPairs(doc, related) == [(doc, related[0])] + DocPairs(doc, related[1..])
  {
  }

  /** The pairs are exactly the (document, matching placement) combinations:
      a combination occurs once for each copy of the document in the list
      and each copy of the placement in the store, and no other pair occurs. */
  lemma {:induction false} PairsCounts(docs: seq<ProcessedDoc>, sigs: seq<SignaturePosition>)
    ensures forall d, s :: multiset(Pairs(docs, sigs))[(d, s)] ==
                             if s.docId == d.id then multiset(docs)[d] * multiset(sigs)[s] else 0
    decreases |docs|, 1
  {
    if docs != [] {
      forall d, s
        ensures multiset(Pairs(docs, sigs))[(d, s)] ==
                  if s.docId == d.id then multiset(docs)[d] * multiset(sigs)[s] else 0
      {
        PairsCountsStep(docs, sigs, d, s);
      }
    }
  }

  /** The inductive step of PairsCounts for one combination. */
  lemma {:induction false} PairsCountsStep(docs: seq<ProcessedDoc>, sigs: seq<SignaturePosition>,
                                           d: ProcessedDoc, s: SignaturePosition)
    requires docs != []
    ensures multiset(Pairs(docs, sigs))[(d, s)] ==
              if s.docId == d.id then multiset(docs)[d] * multiset(sigs)[s] else 0
    decreases |docs|, 0
  {
    var rest := Pairs(docs[1..], sigs);
    var fromFirst := FirstDocumentCount(docs, sigs, d, s);
    PairsCounts(docs[1..], sigs);
    assert Pairs(docs, sigs) == DocPairs(docs[0], ForDoc(sigs, docs[0].id)) + rest;
    assert docs == [docs[0]] + docs[1..];
    CombineCounts(multiset(Pairs(docs, sigs))[(d, s)], fromFirst, multiset(rest)[(d, s)],
                  multiset(docs)[d], multiset(docs[1..])[d], multiset(sigs)[s], d == docs[0], s.docId == d.id);
  }

  /** How often the first document's pairs hold one combination. */
  lemma FirstDocumentCount(docs: seq<ProcessedDoc>, sigs: seq<SignaturePosition>, d: ProcessedDoc,
                           s: SignaturePosition) returns (n: nat)
    requires docs != []
    ensures n == multiset(DocPairs(docs[0], ForDoc(sigs, docs[0].id)))[(d, s)]
    ensures n == if d == docs[0] && s.docId == d.id then multiset(sigs)[s] else 0
  {
    DocPairsCounts(docs[0], ForDoc(sigs, docs[0].id));
    ForDocCounts(sigs, docs[0].id);
    n := multiset(DocPairs(docs[0], ForDoc(sigs, docs[0].id)))[(d, s)];
  }

  /** The counting step: the first document adds its copies of the
      placement, the other documents add theirs. */
  lemma CombineCounts(total: int, fromFirst: int, fromRest: int, docCopies: int, inRest: int, copies: int,
                      isFirst: bool, matches: bool)
    requires total == fromFirst + fromRest
    requires fromFirst == if isFirst && matches then copies else 0
    requires fromRest == if matches then inRest * copies else 0
    requires docCopies == (if isFirst then 1 else 0) + inRest
    ensures total == if matches then docCopies * copies else 0
  {
    if isFirst && matches {
      assert (1 + inRest) * copies == copies + inRest * copies;
    }
  }

  /** Every step of the run is an upload, of the given bundles in order. */
  predicate Uploads(steps: seq<(ProcessedDoc, SignaturePosition)>, image: string, planned: seq<Bundle>) {
    |planned| == |steps| &&
    forall i | 0 <= i < |steps| :: StepFor(steps[i].0, steps[i].1, image) == Call(planned[i])
  }

  /** Position of the first planned upload whose answer is an error, counting
      uploads from `base`; the number of uploads when none fails. */
  function FirstFailure(bundles: seq<Bundle>, signFile: SignFile, base: nat): (k: nat)
    ensures k <= |bundles|
    ensures k < |bundles| ==> IsError(signFile(base + k, bundles[k]))
  {
    if bundles == [] then 0
    else if IsError(signFile(base, bundles[0])) then 0
    else 1 + FirstFailure(bundles[1..], signFile, base + 1)
  }

  /** Every upload before the first failure succeeds. */
  lemma {:induction false} BeforeFirstFailure(bundles: seq<Bundle>, signFile: SignFile, base: nat, j: nat)
    requires j < FirstFailure(bundles, signFile, base)
    ensures !IsError(signFile(base + j, bundles[j]))
  {
    if j > 0 {
      BeforeFirstFailure(bundles[1..], signFile, base + 1, j - 1);
      assert bundles[1..][j - 1] == bundles[j];
    }
  }

  /** The uploads of a run in which every step uploads: each bundle in turn,
      stopping after the first that fails. */
  function UploadAll(bundles: seq<Bundle>, signFile: SignFile, calls: seq<Bundle>): (Outcome, seq<Bundle>)
    decreases |bundles|
  {
    if bundles == [] then (Completed, calls)
    else if IsError(signFile(|calls|, bundles[0])) then
      (UploadFailed(signFile(|calls|, bundles[0]).value), calls + [bundles[0]])
    else UploadAll(bundles[1..], signFile, calls + [bundles[0]])
  }

  /** The bundles of the steps that upload, in order: a skipped pair adds none. */
  function CallBundles(steps: seq<(ProcessedDoc, SignaturePosition)>, image: string): seq<Bundle>
    decreases |steps|
  {
    if steps == [] then []
    else
      (match StepFor(steps[0].0, steps[0].1, image)
       case Call(bundle) => [bundle]
       case _ => []) + CallBundles(steps[1..], image)
  }

  /** No step of the run throws. */
  predicate NoThrow(steps: seq<(ProcessedDoc, SignaturePosition)>, image: string)
    decreases |steps|
  {
    steps == [] || (!StepFor(steps[0].0, steps[0].1, image).Throw? && NoThrow(steps[1..], image))
  }

  /** A run in which no step throws is the run of its uploads: skipped pairs
      (a document whose data is unrecognised) make no call and do not end it. */
  lemma {:induction false} RunSkipsToUploads(steps: seq<(ProcessedDoc, SignaturePosition)>, image: string,
                                             signFile: SignFile, calls: seq<Bundle>)
    requires NoThrow(steps, image)
    ensures Run(steps, image, signFile, calls) == UploadAll(CallBundles(steps, image), signFile, calls)
  {
    if steps != [] {
      var st := StepFor(steps[0].0, steps[0].1, image);
      var rest := CallBundles(steps[1..], image);
      if st.Skip? {
        assert CallBundles(steps, image) == [] + rest;
        assert [] + rest == rest;
        RunSkipsToUploads(steps[1..], image, signFile, calls);
      } else {
        var bundles := [st.bundle] + rest;
        assert CallBundles(steps, image) == bundles;
        assert bundles[0] == st.bundle && bundles[1..] == rest;
        if !IsError(signFile(|calls|, st.bundle)) {
          RunSkipsToUploads(steps[1..], image, signFile, calls + [st.bundle]);
        }
      }
    }
  }

  /** When every step uploads, the planned bundles are the run's uploads and nothing throws. */
  lemma {:induction false} UploadsAreCallBundles(steps: seq<(ProcessedDoc, SignaturePosition)>, image: string,
                                                 planned: seq<Bundle>)
    requires Uploads(steps, image, planned)
    ensures NoThrow(steps, image) && CallBundles(steps, image) == planned
  {
    if steps != [] {
      UploadsTail(steps, image, planned);
      UploadsAreCallBundles(steps[1..], image, planned[1..]);
      assert StepFor(steps[0].0, steps[0].1, image) == Call(planned[0]);
      assert planned == [planned[0]] + planned[1..];
    }
  }

  lemma UploadsTail(steps: seq<(ProcessedDoc, SignaturePosition)>, image: string, planned: seq<Bundle>)
    requires steps != [] && Uploads(steps, image, planned)
    ensures Uploads(steps[1..], image, planned[1..])
  {
    forall i | 0 <= i < |steps[1..]|
      ensures StepFor(steps[1..][i].0, steps[1..][i].1, image) == Call(planned[1..][i])
    {
      assert steps[1..][i] == steps[i + 1];
    }
  }

  /** The uploads stop at the first failure: the bundles up to and including
      it are uploaded, in order, and the run reports its error. */
  lemma {:induction false} UploadAllStopsAtFirstFailure(bundles: seq<Bundle>, signFile: SignFile,
                                                        calls: seq<Bundle>)
    requires FirstFailure(bundles, signFile, |calls|) < |bundles|
    ensures var f := FirstFailure(bundles, signFile, |calls|);
            UploadAll(bundles, signFile, calls) ==
              (UploadFailed(signFile(|calls| + f, bundles[f]).value), calls + bundles[..f + 1])
  {
    if IsError(signFile(|calls|, bundles[0])) {
      assert bundles[..1] == [bundles[0]];
    } else {
      UploadAllStep(bundles, signFile, calls);
      UploadAllStopsAtFirstFailure(bundles[1..], signFile, calls + [bundles[0]]);
      PrefixStep(calls, bundles, FirstFailure(bundles[1..], signFile, |calls| + 1));
    }
  }

  /** With no failure every bundle is uploaded, in order. */
  lemma {:induction false} UploadAllCompletes(bundles: seq<Bundle>, signFile: SignFile, calls: seq<Bundle>)
    requires FirstFailure(bundles, signFile, |calls|) == |bundles|
    ensures UploadAll(bundles, signFile, calls) == (Completed, calls + bundles)
  {
    if bundles == [] {
      assert calls + bundles == calls;
    } else {
      UploadAllStep(bundles, signFile, calls);
      UploadAllCompletes(bundles[1..], signFile, calls + [bundles[0]]);
      assert calls + [bundles[0]] + bundles[1..] == calls + bundles;
    }
  }

  /** After a successful first upload the run goes on with the rest, and the
      first failure is one further along. */
  lemma UploadAllStep(bundles: seq<Bundle>, signFile: SignFile, calls: seq<Bundle>)
    requires bundles != [] && !IsError(signFile(|calls|, bundles[0]))
    ensures UploadAll(bundles, signFile, calls) == UploadAll(bundles[1..], signFile, calls + [bundles[0]])
    ensures FirstFailure(bundles, signFile, |calls|) ==
              1 + FirstFailure(bundles[1..], signFile, |calls + [bundles[0]]|)
  {
  }

  lemma PrefixStep(calls: seq<Bundle>, bundles: seq<Bundle>, f: nat)
    requires f + 1 < |bundles|
    ensures bundles[1..][f] == bundles[f + 1]
    ensures calls + [bundles[0]] + bundles[1..][..f + 1] == calls + bundles[..f + 2]
  {
    assert [bundles[0]] + bundles[1..][..f + 1] == bundles[..f + 2];
  }

  /** When no step throws and an upload fails, the run makes its uploads in
      order up to and including the first one that fails, and no more;
      skipped pairs make no upload. */
  lemma RunStopsAtFirstFailure(steps: seq<(ProcessedDoc, SignaturePosition)>, image: string,
                               planned: seq<Bundle>, signFile: SignFile, calls: seq<Bundle>)
    requires NoThrow(steps, image) && CallBundles(steps, image) == planned
    requires FirstFailure(planned, signFile, |calls|) < |planned|
    ensures var f := FirstFailure(planned, signFile, |calls|);
            Run(steps, image, signFile, calls) ==
              (UploadFailed(signFile(|calls| + f, planned[f]).value), calls + planned[..f + 1])
  {
    RunSkipsToUploads(steps, image, signFile, calls);
    UploadAllStopsAtFirstFailure(planned, signFile, calls);
  }

  /** When no step throws and no upload fails, the run completes after
      making every upload of its steps, in order. */
  lemma RunCompletes(steps: seq<(ProcessedDoc, SignaturePosition)>, image: string,
                     planned: seq<Bundle>, signFile: SignFile, calls: seq<Bundle>)
    requires NoThrow(steps, image) && CallBundles(steps, image) == planned
    requires FirstFailure(planned, signFile, |calls|) == |planned|
    ensures Run(steps, image, signFile, calls) == (Completed, calls + planned)
  {
    RunSkipsToUploads(steps, image, signFile, calls);
    UploadAllCompletes(planned, signFile, calls);
  }

  /** With no image or no placement, no upload is attempted. */
  lemma SubmitGated(docs: seq<ProcessedDoc>, sigs: seq<SignaturePosition>, image: Option<string>,
                    signFile: SignFile)
    requires !ImageLoaded(image) || |sigs| == 0
    ensures SubmitResult(docs, sigs, image, signFile) == (Rejected, [])
  {
  }

  /** The abort example: of three uploads, the second fails, so exactly two
      uploads are made and the run reports the second one's error. */
  lemma SecondOfThreeFails(steps: seq<(ProcessedDoc, SignaturePosition)>, image: string,
                           planned: seq<Bundle>, signFile: SignFile)
    requires |steps| == 3 && Uploads(steps, image, planned)
    requires !IsError(signFile(0, planned[0])) && IsError(signFile(1, planned[1]))
    ensures Run(steps, image, signFile, []) == (UploadFailed(signFile(1, planned[1]).value), planned[..2])
  {
    UploadsAreCallBundles(steps, image, planned);
    assert planned[1..][0] == planned[1];
    assert FirstFailure(planned[1..], signFile, 1) == 0;
    assert FirstFailure(planned, signFile, 0) == 1;
    RunStopsAtFirstFailure(steps, image, planned, signFile, []);
    assert [] + planned[..2] == planned[..2];
  }

  /** A placement without a page never reaches an upload: when no placement
      of the run has a page, the run makes no upload at all. */
  lemma {:induction false} NoPageNoUpload(steps: seq<(ProcessedDoc, SignaturePosition)>, image: string,
                                          signFile: SignFile, calls: seq<Bundle>)
    requires forall i | 0 <= i < |steps| :: steps[i].1.page.None?
    ensures Run(steps, image, signFile, calls).1 == calls
    ensures Run(steps, image, signFile, calls).0 in {Completed, Crashed}
  {
    if steps != [] {
      NoPageNoUpload(steps[1..], image, signFile, calls);
    }
  }

  /** A document prepared from a buffer object uploads the buffer's bytes,
      rebuilt from the base 64 text; with an empty buffer the text is empty,
      which counts as absent, and the document's placements are skipped. */
  lemma PreparedDocumentBytes(doc: ProcessedDoc, data: seq<int>)
    requires doc.file == OtherData
    requires doc.base64 == Some(Encode(ToUint8(data)))
    ensures |data| > 0 ==> PdfSourceOf(doc) == PdfBytes(ToUint8(data))
    ensures |data| == 0 ==> PdfSourceOf(doc) == Unrecognised
  {
    DecodeEncode(ToUint8(data));
  }
}
