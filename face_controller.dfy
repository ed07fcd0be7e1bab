/** The OpenCV-only face system of
    `app/controllers/face_recognition_controller.py`: largest-face selection,
    the margin-20 crop, the `known_faces` map, the motion detector's
    `last_frame` state and the order of the liveness and quality checks.

    Cascades, blur, frame differences, contrast and the grey mean difference
    are oracles gathered in `Optics`. */
module FaceController {
  import opened Common
  import opened Geometry

  /** Session values (`session['user_id']`) key the registered faces. */
  type UserId = Value

  /** `image[y1:y2, x1:x2]`: a window of an image. */
  datatype Region = Region(image: Image, window: Window)

  /** An entry of `known_faces`: `{'name': ..., 'face_region': ...}`. */
  datatype KnownFace = KnownFace(name: Value, faceRegion: Region)

  datatype Optics = Optics(
    // FaceDetector.face_cascade on the grey frame, scale 1.3, 5 neighbours
    faceCascade: Image -> seq<FaceRect>,
    // FaceDetector.eye_cascade on a region, scale 1.1, 4 neighbours
    detectorEyes: Region -> nat,
    // AntiSpoofingDetector.eye_cascade on the face rectangle, scale 1.3, 5 neighbours
    spoofEyes: Region -> nat,
    // grey conversion followed by the 21x21 Gaussian blur
    blurGrey: Image -> seq<bv8>,
    // sum of the thresholded, dilated absolute difference of two blurred frames
    motionEnergy: (seq<bv8>, seq<bv8>) -> Result<int>,
    // standard deviation of the grey face region
    contrast: Region -> real,
    // resize to the stored size, grey both, mean of the absolute difference
    meanDifference: (Region, Region) -> Result<real>)

  const MinFaceSize: int := 100
  const FaceMargin: nat := 20
  const MotionThreshold: int := 1000
  const MinContrast: real := 30.0
  const MatchThreshold: real := 30.0

  const NoFaceMessage := "Nenhum rosto detectado na imagem"
  const TooSmallMessage := "Rosto muito pequeno. Aproxime-se da câmera"
  const NoEyesMessage := "Não foi possível detectar os olhos. Certifique-se de que seu rosto está bem iluminado"
  const RegisteredMessage := "Rosto cadastrado com sucesso!"
  const UnknownUserMessage := "Usuário não encontrado"
  const VerifiedMessage := "Rosto verificado com sucesso"
  const MismatchMessage := "Rosto não corresponde ao cadastrado"
  const ProcessingErrorPrefix := "Erro ao processar a imagem: "
  const QualitySizeMessage := "Rosto muito pequeno ou fora do quadro."
  const QualityContrastMessage := "Contraste insuficiente. Melhore a iluminação."
  const QualityEyesMessage := "Não foi possível detectar os olhos. Remova óculos escuros."
  const QualityGoodMessage := "Rosto de boa qualidade."
  const NoMotionMessage := "Nenhum movimento detectado. Por favor, mova-se levemente."
  const LivenessOkMessage := "Verificação de vivacidade concluída com sucesso."

  /** `max(faces, key=lambda rect: rect[2] * rect[3])`: the index of a face of
      largest area, the first one among equals. */
  function LargestFace(faces: seq<FaceRect>): (k: nat)
    requires |faces| > 0
    ensures k < |faces|
    ensures forall j :: 0 <= j < |faces| ==> Area(faces[j]) <= Area(faces[k])
    ensures forall j :: 0 <= j < k ==> Area(faces[j]) < Area(faces[k])
  {
    if |faces| == 1 then 0
    else
      var k := LargestFace(faces[..|faces| - 1]);
      if Area(faces[|faces| - 1]) > Area(faces[k]) then |faces| - 1 else k
  }

  /** The contract of `LargestFace` pins the index down: no other index is a
      first maximum. */
  lemma LargestFaceUnique(faces: seq<FaceRect>, i: nat)
    requires i < |faces|
    requires forall j :: 0 <= j < |faces| ==> Area(faces[j]) <= Area(faces[i])
    requires forall j :: 0 <= j < i ==> Area(faces[j]) < Area(faces[i])
    ensures LargestFace(faces) == i
  {
  }

  /** The margin-20 region of a face, clamped to the image. */
  function FaceRegion(image: Image, face: FaceRect): Region
  {
    Region(image, CropWindow(face, image.width, image.height, FaceMargin))
  }

  /** `FaceDetector.detect_eyes`: at least two eyes in the region. */
  predicate EyesVisible(region: Region, o: Optics)
  {
    o.detectorEyes(region) >= 2
  }

  /** The face `register_face` and `verify_face` work on. */
  function ChosenFace(faces: seq<FaceRect>): FaceRect
    requires |faces| > 0
  {
    faces[LargestFace(faces)]
  }

  /** What `detect_motion` answers given the previous blurred frame: True on
      the first call, otherwise whether the motion energy exceeds 1000; a
      failing frame difference raises. */
  function MotionVerdict(previous: Option<seq<bv8>>, current: seq<bv8>, o: Optics): Result<bool>
  {
    match previous
    case None => Ok(true)
    case Some(p) =>
      match o.motionEnergy(p, current)
      case Raised(e) => Raised(e)
      case Ok(energy) => Ok(energy > MotionThreshold)
  }

  /** The size guard of `detect_face_quality`: the slice `frame[y:y+h, x:x+w]`
      is empty, or a side is below 100. */
  predicate TooSmallOrOutside(frame: Image, face: FaceRect)
  {
    SliceLen(face.y, face.y + face.h, frame.height) == 0 ||
    SliceLen(face.x, face.x + face.w, frame.width) == 0 ||
    face.w < MinFaceSize || face.h < MinFaceSize
  }

  /** The slice is empty exactly when the rectangle starts outside the
      frame, so the guard rejects exactly those rectangles and the small ones. */
  lemma TooSmallOrOutsideMeaning(frame: Image, face: FaceRect)
    ensures TooSmallOrOutside(frame, face) <==>
              face.x >= frame.width || face.y >= frame.height ||
              face.w < MinFaceSize || face.h < MinFaceSize
  {
    FaceSliceEmpty(face, frame.width, frame.height);
  }

  /** The three guards of `detect_face_quality`, in the order it tries them. */
  function QualityChecks(frame: Image, face: FaceRect, o: Optics): seq<Check<string>>
  {
    var region := Region(frame, Window(face.x, face.y, face.x + face.w, face.y + face.h));
    [Check(!TooSmallOrOutside(frame, face), QualitySizeMessage),
     Check(!(o.contrast(region) < MinContrast), QualityContrastMessage),
     Check(o.spoofEyes(region) > 0, QualityEyesMessage)]
  }

  /** The motion detector with its previous blurred frame. */
  class AntiSpoofingDetector {
    var lastFrame: Option<seq<bv8>>

    constructor ()
      ensures lastFrame.None?
    {
      lastFrame := None;
    }

    /** `detect_motion`: the first call stores the frame and answers True;
        every call that returns leaves the current blurred frame stored; a
        raising difference leaves the state as it was. */
    method DetectMotion(frame: Image, o: Optics) returns (r: Result<bool>)
      modifies this
      ensures r == MotionVerdict(old(lastFrame), o.blurGrey(frame), o)
      ensures old(lastFrame).None? ==> r == Ok(true)
      ensures r.Ok? ==> lastFrame == Some(o.blurGrey(frame))
      ensures r.Raised? ==> lastFrame == old(lastFrame)
    {
      var grey := o.blurGrey(frame);
      if lastFrame.None? {
        lastFrame := Some(grey);
        return Ok(true);
      }
      var energy := o.motionEnergy(lastFrame.value, grey);
      if energy.Raised? {
        return Raised(energy.error);
      }
      var motion := energy.value > MotionThreshold;
      lastFrame := Some(grey);
      return Ok(motion);
    }

    /** `detect_face_quality`: the first failing guard's message, in the
        order size (empty slice, or a side below 100), contrast below 30,
        no eye; its verdict is that of the reference chain. */
    function DetectFaceQuality(frame: Image, face: FaceRect, o: Optics): (r: (bool, string))
      ensures r.0 <==> FirstFailure(QualityChecks(frame, face, o)).None?
      ensures !r.0 ==> r.1 == FirstFailure(QualityChecks(frame, face, o)).value
      ensures r.0 ==> r.1 == QualityGoodMessage
    {
      var region := Region(frame, Window(face.x, face.y, face.x + face.w, face.y + face.h));
      var checks := QualityChecks(frame, face, o);
      FirstFailureOfThree(checks[0], checks[1], checks[2]);
      assert checks == [checks[0], checks[1], checks[2]];
      if SliceLen(face.y, face.y + face.h, frame.height) == 0 ||
         SliceLen(face.x, face.x + face.w, frame.width) == 0 ||
         face.w < 100 || face.h < 100 then
        (false, QualitySizeMessage)
      else if o.contrast(region) < 30.0 then
        (false, QualityContrastMessage)
      else if !(o.spoofEyes(region) > 0) then
        (false, QualityEyesMessage)
      else
        (true, QualityGoodMessage)
    }
  }

  /** `FaceRecognitionSystem`: the map of registered faces and its motion
      detector. */
  class FaceRecognitionSystem {
    var knownFaces: map<UserId, KnownFace>
    const antiSpoof: AntiSpoofingDetector

    constructor ()
      ensures knownFaces == map[] && fresh(antiSpoof) && antiSpoof.lastFrame.None?
    {
      knownFaces := map[];
      antiSpoof := new AntiSpoofingDetector();
    }

    /** `register_face`: the largest face, at least 100 on each side and with
        two visible eyes in its margin-20 region, is stored under `userId`,
        replacing any previous entry; on every rejection the map is
        unchanged. */
    method RegisterFace(image: Image, userId: UserId, userName: Value, o: Optics)
      returns (ok: bool, message: string)
      modifies this
      ensures var faces := o.faceCascade(image);
              (|faces| == 0 ==> !ok && message == NoFaceMessage) &&
              (|faces| > 0 && (ChosenFace(faces).w < MinFaceSize || ChosenFace(faces).h < MinFaceSize) ==>
                 !ok && message == TooSmallMessage) &&
              (ok <==> |faces| > 0 && ChosenFace(faces).w >= MinFaceSize && ChosenFace(faces).h >= MinFaceSize &&
                       EyesVisible(FaceRegion(image, ChosenFace(faces)), o)) &&
              ((|faces| > 0 && ChosenFace(faces).w >= MinFaceSize && ChosenFace(faces).h >= MinFaceSize &&
                !EyesVisible(FaceRegion(image, ChosenFace(faces)), o)) ==> message == NoEyesMessage) &&
              (ok ==> message == RegisteredMessage &&
                      knownFaces == old(knownFaces)[userId := KnownFace(userName, FaceRegion(image, ChosenFace(faces)))])
      ensures !ok ==> knownFaces == old(knownFaces)
    {
      var faces := o.faceCascade(image);
      if |faces| == 0 {
        return false, NoFaceMessage;
      }
      var face := faces[LargestFace(faces)];
      if face.w < MinFaceSize || face.h < MinFaceSize {
        return false, TooSmallMessage;
      }
      var margin := FaceMargin;
      var x1 := Max(0, face.x - margin);
      var y1 := Max(0, face.y - margin);
      var x2 := Min(image.width, face.x + face.w + margin);
      var y2 := Min(image.height, face.y + face.h + margin);
      var faceRegion := Region(image, Window(x1, y1, x2, y2));
      if !EyesVisible(faceRegion, o) {
        return false, NoEyesMessage;
      }
      knownFaces := knownFaces[userId := KnownFace(userName, faceRegion)];
      return true, RegisteredMessage;
    }

    /** `verify_face`: an unknown id is refused before any detection; then
        the largest face's margin-20 region must show two eyes, and it
        matches exactly when its mean grey difference from the stored
        region is strictly below 30. */
    method VerifyFace(image: Image, userId: UserId, o: Optics) returns (ok: bool, message: string)
      ensures userId !in knownFaces ==> !ok && message == UnknownUserMessage
      ensures userId in knownFaces && |o.faceCascade(image)| == 0 ==> !ok && message == NoFaceMessage
      ensures ok <==> userId in knownFaces && |o.faceCascade(image)| > 0 &&
                      var region := FaceRegion(image, ChosenFace(o.faceCascade(image)));
                      EyesVisible(region, o) &&
                      var diff := o.meanDifference(region, knownFaces[userId].faceRegion);
                      diff.Ok? && diff.value < MatchThreshold
      ensures ok ==> message == VerifiedMessage
      ensures userId in knownFaces && |o.faceCascade(image)| > 0 ==>
              var region := FaceRegion(image, ChosenFace(o.faceCascade(image)));
              var diff := o.meanDifference(region, knownFaces[userId].faceRegion);
              (!EyesVisible(region, o) ==> message == NoEyesMessage) &&
              (EyesVisible(region, o) && diff.Raised? ==> message == ProcessingErrorPrefix + diff.error) &&
              (EyesVisible(region, o) && diff.Ok? && diff.value >= MatchThreshold ==> message == MismatchMessage)
    {
      if userId !in knownFaces {
        return false, UnknownUserMessage;
      }
      var storedFace := knownFaces[userId].faceRegion;
      var faces := o.faceCascade(image);
      if |faces| == 0 {
        return false, NoFaceMessage;
      }
      var face := faces[LargestFace(faces)];
      var margin := FaceMargin;
      var x1 := Max(0, face.x - margin);
      var y1 := Max(0, face.y - margin);
      var x2 := Min(image.width, face.x + face.w + margin);
      var y2 := Min(image.height, face.y + face.h + margin);
      var faceRegion := Region(image, Window(x1, y1, x2, y2));
      if !EyesVisible(faceRegion, o) {
        return false, NoEyesMessage;
      }
      var meanDiff := o.meanDifference(faceRegion, storedFace);
      if meanDiff.Raised? {
        return false, ProcessingErrorPrefix + meanDiff.error;
      }
      var threshold := MatchThreshold;
      if meanDiff.value < threshold {
        return true, VerifiedMessage;
      } else {
        return false, MismatchMessage;
      }
    }

    /** `verify_liveness`: motion first, then face quality; the quality
        check is consulted only when motion was seen, and an exception from
        the motion detector propagates. */
    method VerifyLiveness(frame: Image, face: FaceRect, o: Optics) returns (r: Result<(bool, string)>)
      modifies antiSpoof
      ensures var motion := MotionVerdict(old(antiSpoof.lastFrame), o.blurGrey(frame), o);
              (motion.Raised? ==> r == Raised(motion.error)) &&
              (motion == Ok(false) ==> r == Ok((false, NoMotionMessage))) &&
              (motion == Ok(true) ==>
                 var q := antiSpoof.DetectFaceQuality(frame, face, o);
                 r == Ok(if q.0 then (true, LivenessOkMessage) else (false, q.1)))
      ensures r.Ok? ==> antiSpoof.lastFrame == Some(o.blurGrey(frame))
    {
      var motion := antiSpoof.DetectMotion(frame, o);
      if motion.Raised? {
        return Raised(motion.error);
      }
      if !motion.value {
        return Ok((false, NoMotionMessage));
      }
      var quality := antiSpoof.DetectFaceQuality(frame, face, o);
      if !quality.0 {
        return Ok((false, quality.1));
      }
      return Ok((true, LivenessOkMessage));
    }
  }
}
