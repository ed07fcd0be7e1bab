/** The OpenCV face engine of `app/utils/face_utils.py`: the candidate
    post-filter, the margin-10 crop, the 359-value encoding layout, the fused
    similarity decision, and the store of known encodings with its
    registration, loading and authentication operations.

    Image numerics (cascade detection, the feature pipeline, histogram
    correlation, Hu distance, variances, liveness statistics) are oracles,
    gathered in `Vision` and `Metrics`. */
module FaceUtils {
  import opened Common
  import opened Geometry

  type Encoding = seq<real>
  type UserId = int

  type NonNegReal = r: real | r >= 0.0

  // Encoding layout: histogram(64) + LBP(256) + Hu(7) + gradients(32) = 359
  const HistLen: nat := 64
  const LbpLen: nat := 256
  const HuLen: nat := 7
  const GradLen: nat := 32
  const EncodingLen: nat := 359

  const HistWeight: real := 0.30
  const LbpWeight: real := 0.35
  const HuWeight: real := 0.20
  const GradWeight: real := 0.15

  const DefaultThreshold: real := 0.65
  const ConsistencyThreshold: real := 0.7
  const SuspiciousScore: real := 0.95
  const MinEncodingVariance: real := 0.001
  const MinLbpVariance: real := 0.01

  const FaceMargin: nat := 10
  const MinFaceSide: int := 80

  /** The four statistics `_check_liveness` measures on the face crop. */
  datatype LivenessStats = LivenessStats(
    laplacianVariance: real, saturationVariance: real,
    edgeDensity: real, histogramStd: real)

  /** `cv2.compareHist(..., HISTCMP_CORREL)`, `np.linalg.norm(a - b)` and
      `np.var`; the correlation and the variance may raise. */
  datatype Metrics = Metrics(
    correl: (seq<real>, seq<real>) -> Result<real>,
    huDistance: (seq<real>, seq<real>) -> NonNegReal,
    variance: seq<real> -> Result<real>)

  /** The image-processing collaborators: the Haar cascade on the equalised
      grey image, the feature pipeline on a crop window (resize, CLAHE,
      histograms, Hu moments, Sobel), and the liveness statistics of a face. */
  datatype Vision = Vision(
    cascade: Image -> seq<FaceRect>,
    encode: (Image, Window) -> Result<Encoding>,
    liveness: (Image, FaceRect) -> Result<LivenessStats>,
    metrics: Metrics)

  const NoFaceMessage := "Nenhum rosto detectado na imagem"
  const MultipleFacesMessage := "Múltiplos rostos detectados. Por favor, envie uma imagem com apenas um rosto"
  const RegisteredMessage := "Rosto registrado com sucesso"
  const RegisterErrorPrefix := "Erro ao registrar rosto: "
  const AuthNoFaceMessage := "Nenhum rosto detectado"
  const AuthMultipleFacesMessage := "Múltiplos rostos detectados"
  const AuthenticatedMessage := "Rosto autenticado com sucesso"
  const MismatchMessage := "Rosto não corresponde ao usuário"
  const NotEnrolledMessage := "Usuário não possui rosto cadastrado"
  const AuthErrorPrefix := "Erro na autenticação: "
  const LivenessFailedMessage := "Verificação de vivacidade falhou. Posicione-se melhor."
  const RecognisedMessage := "Rosto reconhecido com sucesso"
  const NotRecognisedMessage := "Rosto não reconhecido"

  // ---------------------------------------------------------------------
  // Candidate post-filter

  /** The plausibility filter of `detect_faces`: aspect ratio w/h in
      [0.7, 1.4], written without division, and both sides at least 80. */
  predicate PlausibleFace(r: Rect)
  {
    7 * r.h <= 10 * r.w && 10 * r.w <= 14 * r.h && r.w >= MinFaceSide && r.h >= MinFaceSide
  }

  /** The integer form of the filter is exactly the source's quotient test. */
  lemma AspectRatioBounds(w: int, h: int)
    requires h > 0
    ensures (0.7 <= w as real / h as real <= 1.4) <==> (7 * h <= 10 * w <= 14 * h)
  {
    QuotientAtLeast(w as real, h as real, 0.7);
    QuotientAtMost(w as real, h as real, 1.4);
  }

  /** Against a positive divisor, a lower bound on a quotient is a lower
      bound on the dividend. */
  lemma QuotientAtLeast(x: real, y: real, a: real)
    requires y > 0.0
    ensures a <= x / y <==> a * y <= x
  {
    var q := x / y;
    assert q * y == x;
    if a <= q {
      assert a * y <= q * y;
    } else {
      assert q * y < a * y;
    }
  }

  /** The same for an upper bound. */
  lemma QuotientAtMost(x: real, y: real, b: real)
    requires y > 0.0
    ensures x / y <= b <==> x <= b * y
  {
    var q := x / y;
    assert q * y == x;
    if q <= b {
      assert q * y <= b * y;
    } else {
      assert b * y < q * y;
    }
  }

  /** The detector rectangles that pass the filter, in detector order. */
  function PlausibleFaces(ds: seq<FaceRect>): (out: seq<FaceRect>)
    ensures |out| <= |ds|
    ensures forall r :: r in out <==> r in ds && PlausibleFace(r)
  {
    if ds == [] then []
    else (if PlausibleFace(ds[0]) then [ds[0]] else []) + PlausibleFaces(ds[1..])
  }

  /** Filtering distributes over concatenation: the filter keeps order. */
  lemma {:induction false} PlausibleFacesAppend(a: seq<FaceRect>, b: seq<FaceRect>)
    ensures PlausibleFaces(a + b) == PlausibleFaces(a) + PlausibleFaces(b)
  {
    if a != [] {
      assert (a + b)[1..] == a[1..] + b;
      PlausibleFacesAppend(a[1..], b);
    } else {
      assert a + b == b;
    }
  }

  /** One more candidate extends the filtered prefix by at most itself. */
  lemma PlausibleFacesStep(ds: seq<FaceRect>, i: nat)
    requires i < |ds|
    ensures PlausibleFaces(ds[..i + 1]) ==
            PlausibleFaces(ds[..i]) + (if PlausibleFace(ds[i]) then [ds[i]] else [])
  {
    var prefix, d := ds[..i], ds[i];
    assert ds[..i + 1] == prefix + [d];
    PlausibleFacesAppend(prefix, [d]);
    assert [d][1..] == [];
    assert PlausibleFaces([d]) == (if PlausibleFace(d) then [d] else []) + PlausibleFaces([]);
  }

  /** What `detect_faces` returns: nothing for a missing image, else the
      plausible cascade candidates. */
  function DetectedFaces(image: Option<Image>, v: Vision): (faces: seq<FaceRect>)
    ensures image.None? ==> faces == []
    ensures forall r :: r in faces ==> PlausibleFace(r)
  {
    if image.None? then [] else PlausibleFaces(v.cascade(image.value))
  }

  // ---------------------------------------------------------------------
  // Encoding layout and the decision rule

  /** The four blocks `_split_encoding` returns; a missing block is None. */
  datatype Blocks = Blocks(
    hist: Option<seq<real>>, lbp: Option<seq<real>>,
    hu: Option<seq<real>>, grad: Option<seq<real>>)

  /** `_split_encoding`: the contiguous blocks [0,64), [64,320), [320,327),
      [327,359) of a full encoding; a shorter one (the 103-value encoding left
      when the LBP step fails) is all histogram and has no other block. */
  function SplitEncoding(e: Encoding): (b: Blocks)
    ensures |e| >= EncodingLen ==>
              b.hist.Some? && b.lbp.Some? && b.hu.Some? && b.grad.Some? &&
              |b.hist.value| == HistLen && |b.lbp.value| == LbpLen &&
              |b.hu.value| == HuLen && |b.grad.value| == GradLen &&
              b.hist.value + b.lbp.value + b.hu.value + b.grad.value == e[..EncodingLen]
    ensures |e| < EncodingLen ==> b == Blocks(Some(e), None, None, None)
  {
    if |e| >= EncodingLen then
      assert e[0..64] + e[64..320] + e[320..327] + e[327..359] == e[..359];
      Blocks(Some(e[0..64]), Some(e[64..320]), Some(e[320..327]), Some(e[327..359]))
    else
      Blocks(Some(e), None, None, None)
  }

  /** The Hu-moment term `1 / (1 + dist)`, a similarity in (0, 1]. */
  function HuSimilarity(m: Metrics, a: seq<real>, b: seq<real>): (s: real)
    ensures 0.0 < s <= 1.0
  {
    var d := m.huDistance(a, b);
    assert 1.0 <= 1.0 + d;
    1.0 / (1.0 + d)
  }

  /** A correlation block's weighted term: 0 unless both blocks are present,
      and the exception when `compareHist` raises on them. */
  function CorrelTerm(weight: real, x: Option<seq<real>>, y: Option<seq<real>>, m: Metrics): Result<real>
  {
    if x.Some? && y.Some? then
      match m.correl(x.value, y.value)
      case Ok(c) => Ok(weight * c)
      case Raised(e) => Raised(e)
    else Ok(0.0)
  }

  function HuTerm(x: Option<seq<real>>, y: Option<seq<real>>, m: Metrics): real
  {
    if x.Some? && y.Some? then HuWeight * HuSimilarity(m, x.value, y.value) else 0.0
  }

  /** Adding a term computed after another: the first exception wins. */
  function AddTerms(a: Result<real>, b: Result<real>): Result<real>
  {
    if a.Raised? then a else if b.Raised? then b else Ok(a.value + b.value)
  }

  /** The fused similarity: the sum of the weighted terms of the blocks
      present in both encodings, computed histogram, LBP, Hu, gradients in
      turn; the first correlation that raises ends the computation. */
  function FusedScore(e1: Encoding, e2: Encoding, m: Metrics): Result<real>
  {
    var b1, b2 := SplitEncoding(e1), SplitEncoding(e2);
    AddTerms(AddTerms(AddTerms(CorrelTerm(HistWeight, b1.hist, b2.hist, m),
                               CorrelTerm(LbpWeight, b1.lbp, b2.lbp, m)),
                      Ok(HuTerm(b1.hu, b2.hu, m))),
             CorrelTerm(GradWeight, b1.grad, b2.grad, m))
  }

  /** On two full encodings the score weighs every block of the layout; when
      a correlation raises, the first to do so in the order histogram, LBP,
      gradients is the outcome. */
  lemma FusedScoreFullLayout(e1: Encoding, e2: Encoding, m: Metrics)
    requires |e1| >= EncodingLen && |e2| >= EncodingLen
    ensures var hist := m.correl(e1[0..64], e2[0..64]);
            var lbp := m.correl(e1[64..320], e2[64..320]);
            var grad := m.correl(e1[327..359], e2[327..359]);
            FusedScore(e1, e2, m) ==
              if hist.Raised? then hist
              else if lbp.Raised? then lbp
              else if grad.Raised? then grad
              else Ok(0.30 * hist.value + 0.35 * lbp.value +
                      0.20 * (1.0 / (1.0 + m.huDistance(e1[320..327], e2[320..327]))) +
                      0.15 * grad.value)
  {
  }

  /** On two short encodings only the histogram term remains. */
  lemma FusedScoreShortLayout(e1: Encoding, e2: Encoding, m: Metrics)
    requires |e1| < EncodingLen && |e2| < EncodingLen
    ensures var hist := m.correl(e1, e2);
            FusedScore(e1, e2, m) == if hist.Raised? then hist else Ok(0.30 * hist.value)
  {
  }

  /** With correlations in [-1, 1] a computed fused score lies in (-0.8, 1]. */
  lemma FusedScoreBounds(e1: Encoding, e2: Encoding, m: Metrics)
    requires forall x, y :: m.correl(x, y).Ok? ==> -1.0 <= m.correl(x, y).value <= 1.0
    ensures FusedScore(e1, e2, m).Ok? ==> -0.8 < FusedScore(e1, e2, m).value <= 1.0
  {
    var b1, b2 := SplitEncoding(e1), SplitEncoding(e2);
    var h := CorrelTerm(HistWeight, b1.hist, b2.hist, m);
    var l := CorrelTerm(LbpWeight, b1.lbp, b2.lbp, m);
    var u := HuTerm(b1.hu, b2.hu, m);
    var g := CorrelTerm(GradWeight, b1.grad, b2.grad, m);
    if h.Ok? && l.Ok? && g.Ok? {
      assert -0.30 <= h.value <= 0.30;
      assert -0.35 <= l.value <= 0.35;
      assert 0.0 <= u <= 0.20;
      assert -0.15 <= g.value <= 0.15;
      assert u > 0.0 || b1.hu.None? || b2.hu.None?;
      if b1.hu.None? || b2.hu.None? {
        assert |e1| < EncodingLen || |e2| < EncodingLen;
        assert b1.lbp.None? || b2.lbp.None?;
        assert b1.grad.None? || b2.grad.None?;
      }
    }
  }

  /** `_validate_natural_face`: reject an encoding whose variance is below
      0.001, or whose LBP block's variance is below 0.01. Only the first
      encoding is examined, and a variance that raises accepts it. */
  function NaturalFace(e: Encoding, m: Metrics): (natural: bool)
    ensures m.variance(e).Raised? ==> natural
    ensures !natural <==>
              m.variance(e).Ok? &&
              (m.variance(e).value < MinEncodingVariance ||
               (|e| >= EncodingLen && m.variance(e[64..320]).Ok? &&
                m.variance(e[64..320]).value < MinLbpVariance))
  {
    match m.variance(e)
    case Raised(_) => true
    case Ok(overall) =>
      if overall < MinEncodingVariance then false
      else
        var lbp := SplitEncoding(e).lbp;
        if lbp.None? then true
        else
          match m.variance(lbp.value)
          case Raised(_) => true
          case Ok(texture) => texture >= MinLbpVariance
  }

  /** The verdict of `compare_faces`, or the exception it lets through. */
  function MatchDecision(e1: Option<Encoding>, e2: Option<Encoding>, threshold: real, m: Metrics)
    : (d: Result<bool>)
    ensures d.Raised? ==> e1.Some? && e2.Some? && |e1.value| == |e2.value| &&
                          FusedScore(e1.value, e2.value, m) == Raised(d.error)
    ensures d == Ok(true) ==> e1.Some? && e2.Some? && |e1.value| == |e2.value| &&
                              FusedScore(e1.value, e2.value, m).Ok? &&
                              FusedScore(e1.value, e2.value, m).value >= threshold
  {
    if e1.None? || e2.None? || |e1.value| != |e2.value| then Ok(false)
    else
      match FusedScore(e1.value, e2.value, m)
      case Raised(err) => Raised(err)
      case Ok(score) =>
        if score > threshold && score > SuspiciousScore && !NaturalFace(e1.value, m) then Ok(false)
        else Ok(score >= threshold)
  }

  /** The naturalness guard decides only when the score exceeds both the
      threshold and 0.95; everywhere else the verdict is `score >= threshold`,
      and an exception in the score is the outcome. */
  lemma NaturalnessGuardScope(e1: Encoding, e2: Encoding, threshold: real, m: Metrics)
    requires |e1| == |e2|
    ensures var d := MatchDecision(Some(e1), Some(e2), threshold, m);
            match FusedScore(e1, e2, m)
            case Raised(err) => d == Raised(err)
            case Ok(s) =>
              (s > threshold && s > SuspiciousScore ==> d == Ok(NaturalFace(e1, m))) &&
              (!(s > threshold && s > SuspiciousScore) ==> d == Ok(s >= threshold))
  {
  }

  /** An encoding compared with itself scores exactly 1 when every block
      correlates perfectly with itself and has Hu distance 0, and so matches
      at any threshold up to 1 once it passes the naturalness guard. */
  lemma {:induction false} SelfComparisonMatches(e: Encoding, threshold: real, m: Metrics)
    requires |e| >= EncodingLen
    requires forall x :: m.correl(x, x) == Ok(1.0)
    requires forall x :: m.huDistance(x, x) == 0.0
    requires NaturalFace(e, m)
    requires threshold <= 1.0
    ensures FusedScore(e, e, m) == Ok(1.0)
    ensures MatchDecision(Some(e), Some(e), threshold, m) == Ok(true)
  {
    FusedScoreFullLayout(e, e, m);
    assert m.correl(e[0..64], e[0..64]) == Ok(1.0);
    assert m.correl(e[64..320], e[64..320]) == Ok(1.0);
    assert m.correl(e[327..359], e[327..359]) == Ok(1.0);
    assert m.huDistance(e[320..327], e[320..327]) == 0.0;
  }

  /** A short (fallback) encoding never matches at the default threshold:
      its score is at most 0.30, or the comparison raises. */
  lemma ShortEncodingsNeverMatch(e1: Encoding, e2: Encoding, m: Metrics)
    requires |e1| == |e2| < EncodingLen
    requires forall x, y :: m.correl(x, y).Ok? ==> m.correl(x, y).value <= 1.0
    ensures MatchDecision(Some(e1), Some(e2), DefaultThreshold, m) != Ok(true)
  {
    FusedScoreShortLayout(e1, e2, m);
    assert m.correl(e1, e2).Ok? ==> m.correl(e1, e2).value <= 1.0;
  }

  /** Python's `sum` over the collected terms, left to right. */
  function Sum(s: seq<real>): real
  {
    if s == [] then 0.0 else Sum(s[..|s| - 1]) + s[|s| - 1]
  }

  lemma SumAppend(s: seq<real>, x: real)
    ensures Sum(s + [x]) == Sum(s) + x
  {
    assert (s + [x])[..|s|] == s;
  }

  /** One correlation block of `compare_faces`: when both blocks are
      present their weighted correlation is appended to the scores, and a
      `compareHist` that raises ends the comparison. */
  method AppendCorrelTerm(scores: seq<real>, weight: real, x: Option<seq<real>>, y: Option<seq<real>>,
                          m: Metrics) returns (r: Result<seq<real>>)
    ensures CorrelTerm(weight, x, y, m).Raised? ==> r == Raised(CorrelTerm(weight, x, y, m).error)
    ensures CorrelTerm(weight, x, y, m).Ok? ==>
              r.Ok? && Sum(r.value) == Sum(scores) + CorrelTerm(weight, x, y, m).value
  {
    if x.Some? && y.Some? {
      var corr := m.correl(x.value, y.value);
      if corr.Raised? {
        return Raised(corr.error);
      }
      SumAppend(scores, corr.value * weight);
      return Ok(scores + [corr.value * weight]);
    }
    return Ok(scores);
  }

  /** `compare_faces(e1, e2, threshold)`: collects the weighted block terms in
      a list, sums them, and applies the threshold and the naturalness guard;
      a `compareHist` that raises ends it with that exception. */
  method CompareFaces(e1: Option<Encoding>, e2: Option<Encoding>, threshold: real, m: Metrics)
    returns (matched: Result<bool>)
    ensures matched == MatchDecision(e1, e2, threshold, m)
    ensures e1.None? || e2.None? ==> matched == Ok(false)
    ensures e1.Some? && e2.Some? && |e1.value| != |e2.value| ==> matched == Ok(false)
    ensures matched == Ok(true) ==> FusedScore(e1.value, e2.value, m).Ok? &&
                                    FusedScore(e1.value, e2.value, m).value >= threshold
  {
    if e1.None? || e2.None? {
      return Ok(false);
    }
    if |e1.value| != |e2.value| {
      return Ok(false);
    }
    var b1 := SplitEncoding(e1.value);
    var b2 := SplitEncoding(e2.value);
    ghost var hist := CorrelTerm(HistWeight, b1.hist, b2.hist, m);
    ghost var lbp := CorrelTerm(LbpWeight, b1.lbp, b2.lbp, m);
    ghost var hu := HuTerm(b1.hu, b2.hu, m);
    ghost var grad := CorrelTerm(GradWeight, b1.grad, b2.grad, m);
    assert FusedScore(e1.value, e2.value, m) == AddTerms(AddTerms(AddTerms(hist, lbp), Ok(hu)), grad);
    var scores: seq<real> := [];
    var step := AppendCorrelTerm(scores, HistWeight, b1.hist, b2.hist, m);
    if step.Raised? {
      return Raised(step.error);
    }
    scores := step.value;
    step := AppendCorrelTerm(scores, LbpWeight, b1.lbp, b2.lbp, m);
    if step.Raised? {
      return Raised(step.error);
    }
    scores := step.value;
    if b1.hu.Some? && b2.hu.Some? {
      var huSim := 1.0 / (1.0 + m.huDistance(b1.hu.value, b2.hu.value));
      SumAppend(scores, huSim * HuWeight);
      scores := scores + [huSim * HuWeight];
    }
    assert Sum(scores) == hist.value + lbp.value + hu;
    step := AppendCorrelTerm(scores, GradWeight, b1.grad, b2.grad, m);
    if step.Raised? {
      return Raised(step.error);
    }
    scores := step.value;
    var finalScore := if scores != [] then Sum(scores) else 0.0;
    assert FusedScore(e1.value, e2.value, m) == Ok(finalScore);
    if finalScore > threshold {
      if finalScore > SuspiciousScore {
        if !NaturalFace(e1.value, m) {
          return Ok(false);
        }
      }
    }
    return Ok(finalScore >= threshold);
  }

  // ---------------------------------------------------------------------
  // Liveness and consistency

  /** `_check_liveness`: the four checks in order (sharpness, saturation
      variance, edge density, histogram spread); a statistic equal to its
      threshold passes, and an internal error fails open. */
  function LivenessPasses(r: Result<LivenessStats>): (passes: bool)
    ensures passes <==>
              r.Raised? ||
              (r.value.laplacianVariance >= 100.0 && r.value.saturationVariance >= 50.0 &&
               r.value.edgeDensity >= 0.05 && r.value.histogramStd >= 10.0)
  {
    match r
    case Raised(_) => true
    case Ok(s) =>
      if s.laplacianVariance < 100.0 then false
      else if s.saturationVariance < 50.0 then false
      else if s.edgeDensity < 0.05 then false
      else if s.histogramStd < 10.0 then false
      else true
  }

  /** The encoding of a face: the feature pipeline on the margin-10 crop,
      clamped to the image. */
  function ExtractEncoding(image: Image, face: FaceRect, v: Vision): (encoding: Result<Encoding>)
    ensures exists c: Window :: 0 <= c.x1 && 0 <= c.y1 && c.x2 <= image.width && c.y2 <= image.height &&
                                encoding == v.encode(image, c) &&
                                (InImage(face, image.width, image.height) ==>
                                   c.x1 <= face.x && face.x + face.w <= c.x2 && c.y1 <= face.y && face.y + face.h <= c.y2)
    ensures FaceMargin <= face.x && FaceMargin <= face.y &&
            face.x + face.w + FaceMargin <= image.width && face.y + face.h + FaceMargin <= image.height ==>
              encoding == v.encode(image, Window(face.x - FaceMargin, face.y - FaceMargin,
                                                 face.x + face.w + FaceMargin, face.y + face.h + FaceMargin))
  {
    v.encode(image, CropWindow(face, image.width, image.height, FaceMargin))
  }

  /** `_verify_face_consistency`: detect again, encode the first face again,
      and compare with the stored encoding at the stricter threshold 0.7. No
      face is inconsistent; an exception from the encoder or the comparison
      counts as consistent. */
  function Consistent(image: Image, stored: Encoding, v: Vision): (consistent: bool)
    ensures PlausibleFaces(v.cascade(image)) == [] ==> !consistent
    ensures PlausibleFaces(v.cascade(image)) != [] ==>
              var current := ExtractEncoding(image, PlausibleFaces(v.cascade(image))[0], v);
              (current.Raised? ==> consistent) &&
              (current.Ok? ==>
                 var d := MatchDecision(Some(current.value), Some(stored), ConsistencyThreshold, v.metrics);
                 (d.Raised? ==> consistent) &&
                 (d.Ok? ==> (consistent <==> d.value)) &&
                 (consistent && d.Ok? ==>
                    |current.value| == |stored| &&
                    FusedScore(current.value, stored, v.metrics).value >= ConsistencyThreshold))
  {
    var faces := PlausibleFaces(v.cascade(image));
    if |faces| == 0 then false
    else
      match ExtractEncoding(image, faces[0], v)
      case Raised(_) => true
      case Ok(current) =>
        match MatchDecision(Some(current), Some(stored), ConsistencyThreshold, v.metrics)
        case Raised(_) => true
        case Ok(verdict) => verdict
  }

  /** A stored encoding is accepted by the 1:N search when it passes the
      comparison at 0.65 and the consistency re-check. */
  predicate Accepts(probe: Encoding, stored: Encoding, image: Image, v: Vision)
  {
    MatchDecision(Some(probe), Some(stored), DefaultThreshold, v.metrics) == Ok(true) &&
    Consistent(image, stored, v)
  }

  /** The 1:N search stops at a stored encoding it accepts, and at one whose
      comparison raises, which ends the whole search with the error. */
  predicate Decides(probe: Encoding, stored: Encoding, image: Image, v: Vision)
  {
    MatchDecision(Some(probe), Some(stored), DefaultThreshold, v.metrics).Raised? ||
    Accepts(probe, stored, image, v)
  }

  /** The index where the search stops, |encs| when it runs to the end. */
  function FirstDecisive(encs: seq<Encoding>, probe: Encoding, image: Image, v: Vision): (k: nat)
    ensures k <= |encs|
    ensures forall j :: 0 <= j < k ==> !Decides(probe, encs[j], image, v)
    ensures k < |encs| ==> Decides(probe, encs[k], image, v)
  {
    if encs == [] then 0
    else if Decides(probe, encs[0], image, v) then 0
    else 1 + FirstDecisive(encs[1..], probe, image, v)
  }

  /** First match wins: a later candidate is never preferred to an earlier
      accepted one, however the two score, and a comparison that raises
      hides every candidate after it. */
  lemma FirstDecisiveIsEarliest(encs: seq<Encoding>, probe: Encoding, image: Image, v: Vision, j: nat)
    requires j < |encs| && Decides(probe, encs[j], image, v)
    ensures FirstDecisive(encs, probe, image, v) <= j
  {
  }

  /** The first index holding the user's id, the one that decides `authenticate_face`. */
  function FirstIndexOf(ids: seq<UserId>, u: UserId): (k: Option<nat>)
    ensures k.None? <==> u !in ids
    ensures k.Some? ==> k.value < |ids| && ids[k.value] == u &&
                        forall j :: 0 <= j < k.value ==> ids[j] != u
  {
    if ids == [] then None
    else if ids[0] == u then Some(0)
    else
      assert ids == [ids[0]] + ids[1..];
      match FirstIndexOf(ids[1..], u)
      case None => None
      case Some(j) => Some(j + 1)
  }

  // ---------------------------------------------------------------------
  // Loading from the database

  /** A database row of a user: its id and its `rosto` column. */
  datatype UserRow = UserRow(id: UserId, rosto: Option<seq<bv8>>)

  /** `user.get('rosto')` is truthy: present and non-empty. */
  predicate HasFace(row: UserRow)
  {
    row.rosto.Some? && |row.rosto.value| > 0
  }

  predicate Loads(row: UserRow, unpickle: seq<bv8> -> Result<Encoding>)
  {
    HasFace(row) && unpickle(row.rosto.value).Ok?
  }

  function LoadedIds(rows: seq<UserRow>, unpickle: seq<bv8> -> Result<Encoding>): seq<UserId>
  {
    if rows == [] then []
    else
      var last := rows[|rows| - 1];
      LoadedIds(rows[..|rows| - 1], unpickle) + (if Loads(last, unpickle) then [last.id] else [])
  }

  function LoadedEncodings(rows: seq<UserRow>, unpickle: seq<bv8> -> Result<Encoding>): seq<Encoding>
  {
    if rows == [] then []
    else
      var last := rows[|rows| - 1];
      LoadedEncodings(rows[..|rows| - 1], unpickle) +
      (if Loads(last, unpickle) then [unpickle(last.rosto.value).value] else [])
  }

  /** Loading keeps the two lists aligned: entry i of both comes from the
      same row, so they have equal length and matching pairs. */
  lemma {:induction false} LoadedAligned(rows: seq<UserRow>, unpickle: seq<bv8> -> Result<Encoding>)
    ensures |LoadedIds(rows, unpickle)| == |LoadedEncodings(rows, unpickle)|
    ensures forall i :: 0 <= i < |LoadedIds(rows, unpickle)| ==>
              exists j :: 0 <= j < |rows| && Loads(rows[j], unpickle) &&
                          LoadedIds(rows, unpickle)[i] == rows[j].id &&
                          LoadedEncodings(rows, unpickle)[i] == unpickle(rows[j].rosto.value).value
  {
    if rows != [] {
      var init := rows[..|rows| - 1];
      LoadedAligned(init, unpickle);
      var ids, encs := LoadedIds(rows, unpickle), LoadedEncodings(rows, unpickle);
      forall i | 0 <= i < |ids|
        ensures exists j :: 0 <= j < |rows| && Loads(rows[j], unpickle) &&
                            ids[i] == rows[j].id && encs[i] == unpickle(rows[j].rosto.value).value
      {
        if i < |LoadedIds(init, unpickle)| {
          var j :| 0 <= j < |init| && Loads(init[j], unpickle) &&
                   LoadedIds(init, unpickle)[i] == init[j].id &&
                   LoadedEncodings(init, unpickle)[i] == unpickle(init[j].rosto.value).value;
          assert rows[j] == init[j];
        } else {
          assert rows[|rows| - 1] == rows[|rows| - 1];
        }
      }
    }
  }

  /** Every row with a truthy `rosto` that decodes is loaded, and nothing else. */
  lemma {:induction false} LoadedIdsFromRows(rows: seq<UserRow>, unpickle: seq<bv8> -> Result<Encoding>, u: UserId)
    ensures u in LoadedIds(rows, unpickle) <==>
              exists j :: 0 <= j < |rows| && rows[j].id == u && Loads(rows[j], unpickle)
  {
    if rows != [] {
      var init := rows[..|rows| - 1];
      LoadedIdsFromRows(init, unpickle, u);
      if exists j :: 0 <= j < |rows| && rows[j].id == u && Loads(rows[j], unpickle) {
        var j :| 0 <= j < |rows| && rows[j].id == u && Loads(rows[j], unpickle);
        if j < |init| {
          assert init[j] == rows[j];
        }
      }
      if u in LoadedIds(init, unpickle) {
        var j :| 0 <= j < |init| && init[j].id == u && Loads(init[j], unpickle);
        assert rows[j] == init[j];
      }
    }
  }

  // ---------------------------------------------------------------------
  // The store of known faces

  /** `FaceRecognitionUtils`: the parallel lists of known encodings and ids. */
  class FaceStore {
    var encodings: seq<Encoding>
    var ids: seq<UserId>

    /** Entry i of both lists describes the same enrolment. */
    ghost predicate Valid()
      reads this
    {
      |encodings| == |ids|
    }

    constructor ()
      ensures Valid() && encodings == [] && ids == []
    {
      encodings := [];
      ids := [];
    }

    /** `detect_faces`: the cascade's candidates passed through the
        aspect and size filter, in detector order. */
    method DetectFaces(image: Option<Image>, v: Vision) returns (faces: seq<FaceRect>)
      ensures faces == DetectedFaces(image, v)
    {
      if image.None? {
        return [];
      }
      var candidates := v.cascade(image.value);
      faces := [];
      var i := 0;
      while i < |candidates|
        invariant 0 <= i <= |candidates|
        invariant faces == PlausibleFaces(candidates[..i])
      {
        var r := candidates[i];
        var aspectRatio := r.w as real / r.h as real;
        AspectRatioBounds(r.w, r.h);
        if 0.7 <= aspectRatio <= 1.4 {
          if r.w >= 80 && r.h >= 80 {
            faces := faces + [r];
          }
        }
        PlausibleFacesStep(candidates, i);
        i := i + 1;
      }
      assert candidates[..i] == candidates;
    }

    /** `register_face`: exactly one plausible face is encoded and appended,
        with the id, to both lists; on zero or several faces, or an encoder
        error, both lists are unchanged. */
    method RegisterFace(image: Option<Image>, userId: UserId, v: Vision) returns (ok: bool, message: string)
      requires Valid()
      modifies this
      ensures Valid()
      ensures var faces := DetectedFaces(image, v);
              (|faces| == 0 ==> !ok && message == NoFaceMessage) &&
              (|faces| > 1 ==> !ok && message == MultipleFacesMessage) &&
              (ok <==> |faces| == 1 && ExtractEncoding(image.value, faces[0], v).Ok?) &&
              (|faces| == 1 && ExtractEncoding(image.value, faces[0], v).Raised? ==>
                 message == RegisterErrorPrefix + ExtractEncoding(image.value, faces[0], v).error) &&
              (ok ==> message == RegisteredMessage &&
                      encodings == old(encodings) + [ExtractEncoding(image.value, faces[0], v).value] &&
                      ids == old(ids) + [userId])
      ensures !ok ==> encodings == old(encodings) && ids == old(ids)
    {
      var faces := DetectFaces(image, v);
      if |faces| == 0 {
        return false, NoFaceMessage;
      }
      if |faces| > 1 {
        return false, MultipleFacesMessage;
      }
      var encoded := ExtractEncoding(image.value, faces[0], v);
      if encoded.Raised? {
        return false, RegisterErrorPrefix + encoded.error;
      }
      encodings := encodings + [encoded.value];
      ids := ids + [userId];
      return true, RegisteredMessage;
    }

    /** `authenticate_face`: the first index holding `userId` decides, by
        comparing its encoding with the probe; later entries for the same
        id are never examined. An exception from the encoder or the
        comparison is reported with its text. */
    method AuthenticateFace(image: Option<Image>, userId: UserId, v: Vision) returns (ok: bool, message: string)
      requires Valid()
      ensures var faces := DetectedFaces(image, v);
              (|faces| == 0 ==> !ok && message == AuthNoFaceMessage) &&
              (|faces| > 1 ==> !ok && message == AuthMultipleFacesMessage) &&
              (|faces| == 1 && ExtractEncoding(image.value, faces[0], v).Raised? ==>
                 !ok && message == AuthErrorPrefix + ExtractEncoding(image.value, faces[0], v).error)
      ensures var faces := DetectedFaces(image, v);
              |faces| == 1 && ExtractEncoding(image.value, faces[0], v).Ok? ==>
                var probe := ExtractEncoding(image.value, faces[0], v).value;
                match FirstIndexOf(ids, userId)
                case None => !ok && message == NotEnrolledMessage
                case Some(k) =>
                  var d := MatchDecision(Some(probe), Some(encodings[k]), DefaultThreshold, v.metrics);
                  (ok <==> d == Ok(true)) &&
                  (d == Ok(true) ==> message == AuthenticatedMessage) &&
                  (d == Ok(false) ==> message == MismatchMessage) &&
                  (d.Raised? ==> message == AuthErrorPrefix + d.error)
      ensures ok ==> |DetectedFaces(image, v)| == 1
    {
      var faces := DetectFaces(image, v);
      if |faces| == 0 {
        return false, AuthNoFaceMessage;
      }
      if |faces| > 1 {
        return false, AuthMultipleFacesMessage;
      }
      var encoded := ExtractEncoding(image.value, faces[0], v);
      if encoded.Raised? {
        return false, AuthErrorPrefix + encoded.error;
      }
      var i := 0;
      while i < |ids|
        invariant 0 <= i <= |ids|
        invariant forall j :: 0 <= j < i ==> ids[j] != userId
      {
        if ids[i] == userId {
          var matched := CompareFaces(Some(encoded.value), Some(encodings[i]), DefaultThreshold, v.metrics);
          if matched.Raised? {
            return false, AuthErrorPrefix + matched.error;
          }
          if matched.value {
            return true, AuthenticatedMessage;
          } else {
            return false, MismatchMessage;
          }
        }
        i := i + 1;
      }
      return false, NotEnrolledMessage;
    }

    /** `authenticate_any_face`: zero or several faces and a failed liveness
        check are rejected before any comparison; then the stored encodings
        are tried in list order, and the first that passes the comparison and
        the consistency re-check names the user. A comparison that raises
        ends the search with its text. */
    method AuthenticateAnyFace(image: Option<Image>, v: Vision)
      returns (ok: bool, user: Option<UserId>, message: string)
      requires Valid()
      ensures var faces := DetectedFaces(image, v);
              (|faces| == 0 ==> !ok && message == AuthNoFaceMessage) &&
              (|faces| > 1 ==> !ok && message == AuthMultipleFacesMessage) &&
              (|faces| == 1 && !LivenessPasses(v.liveness(image.value, faces[0])) ==>
                 !ok && message == LivenessFailedMessage) &&
              (|faces| == 1 && LivenessPasses(v.liveness(image.value, faces[0])) &&
               ExtractEncoding(image.value, faces[0], v).Raised? ==>
                 !ok && message == AuthErrorPrefix + ExtractEncoding(image.value, faces[0], v).error)
      ensures var faces := DetectedFaces(image, v);
              |faces| == 1 && LivenessPasses(v.liveness(image.value, faces[0])) &&
              ExtractEncoding(image.value, faces[0], v).Ok? ==>
                var probe := ExtractEncoding(image.value, faces[0], v).value;
                var k := FirstDecisive(encodings, probe, image.value, v);
                (k == |encodings| ==> !ok && message == NotRecognisedMessage) &&
                (k < |encodings| ==>
                   var d := MatchDecision(Some(probe), Some(encodings[k]), DefaultThreshold, v.metrics);
                   (ok <==> d.Ok?) &&
                   (ok ==> user == Some(ids[k]) && message == RecognisedMessage) &&
                   (d.Raised? ==> message == AuthErrorPrefix + d.error))
      ensures ok ==> |DetectedFaces(image, v)| == 1
      ensures !ok ==> user.None?
    {
      var faces := DetectFaces(image, v);
      if |faces| == 0 {
        return false, None, AuthNoFaceMessage;
      }
      if |faces| > 1 {
        return false, None, AuthMultipleFacesMessage;
      }
      if !LivenessPasses(v.liveness(image.value, faces[0])) {
        return false, None, LivenessFailedMessage;
      }
      var encoded := ExtractEncoding(image.value, faces[0], v);
      if encoded.Raised? {
        return false, None, AuthErrorPrefix + encoded.error;
      }
      var probe := encoded.value;
      var i := 0;
      while i < |encodings|
        invariant 0 <= i <= |encodings|
        invariant forall j :: 0 <= j < i ==> !Decides(probe, encodings[j], image.value, v)
      {
        var matched := CompareFaces(Some(probe), Some(encodings[i]), DefaultThreshold, v.metrics);
        if matched.Raised? {
          FirstDecisiveIsEarliest(encodings, probe, image.value, v, i);
          return false, None, AuthErrorPrefix + matched.error;
        }
        if matched.value {
          var candidate := ids[i];
          if Consistent(image.value, encodings[i], v) {
            FirstDecisiveIsEarliest(encodings, probe, image.value, v, i);
            return true, Some(candidate), RecognisedMessage;
          }
        }
        i := i + 1;
      }
      return false, None, NotRecognisedMessage;
    }

    /** `load_known_faces_from_database`: both lists are reset, then every
        row with a truthy `rosto` that decodes appends its encoding and its
        id, in row order; a row that fails to decode is skipped. */
    method LoadKnownFacesFromDatabase(rows: seq<UserRow>, unpickle: seq<bv8> -> Result<Encoding>)
      modifies this
      ensures Valid()
      ensures encodings == LoadedEncodings(rows, unpickle) && ids == LoadedIds(rows, unpickle)
    {
      encodings := [];
      ids := [];
      var i := 0;
      while i < |rows|
        invariant 0 <= i <= |rows|
        invariant encodings == LoadedEncodings(rows[..i], unpickle)
        invariant ids == LoadedIds(rows[..i], unpickle)
      {
        var row := rows[i];
        if row.rosto.Some? && |row.rosto.value| > 0 {
          var decoded := unpickle(row.rosto.value);
          if decoded.Ok? {
            encodings := encodings + [decoded.value];
            ids := ids + [row.id];
          }
        }
        assert rows[..i + 1][..i] == rows[..i];
        i := i + 1;
      }
      assert rows[..i] == rows;
      LoadedAligned(rows, unpickle);
    }
  }

  /** Enrolling a face and then identifying the same image names the
      enrolled user, for an image whose single face passes liveness and whose
      encoding is full-length and natural, when every block correlates
      perfectly with itself, without raising, and has Hu distance 0. */
  method EnrolThenIdentify(image: Image, u: UserId, v: Vision) returns (who: Option<UserId>)
    requires |DetectedFaces(Some(image), v)| == 1
    requires var face := DetectedFaces(Some(image), v)[0];
             LivenessPasses(v.liveness(image, face)) &&
             ExtractEncoding(image, face, v).Ok? &&
             |ExtractEncoding(image, face, v).value| >= EncodingLen &&
             NaturalFace(ExtractEncoding(image, face, v).value, v.metrics)
    requires forall x :: v.metrics.correl(x, x) == Ok(1.0)
    requires forall x :: v.metrics.huDistance(x, x) == 0.0
    ensures who == Some(u)
  {
    var store := new FaceStore();
    var registered, _ := store.RegisterFace(Some(image), u, v);
    var e := ExtractEncoding(image, DetectedFaces(Some(image), v)[0], v).value;
    assert store.encodings == [e] && store.ids == [u];
    SelfComparisonMatches(e, DefaultThreshold, v.metrics);
    SelfComparisonMatches(e, ConsistencyThreshold, v.metrics);
    assert Accepts(e, store.encodings[0], image, v);
    FirstDecisiveIsEarliest(store.encodings, e, image, v, 0);
    var ok, found, _ := store.AuthenticateAnyFace(Some(image), v);
    who := found;
  }
}
