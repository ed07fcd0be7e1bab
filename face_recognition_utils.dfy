/** The library-based pipeline of `app/utils/face_recognition_utils.py`:
    data-URI stripping, the quality and encoding chains, the 0.6 distance
    rule with its confidence, and the shapes of the registration and
    authentication results.

    The face_recognition library, PIL, base64 and pickle are oracles
    gathered in `Library`; each may raise, which the pipeline catches. */
module FaceRecognitionUtils {
  import opened Common
  import opened Geometry
  import Text

  type Encoding = seq<real>

  /** A face location as `face_locations` reports it. */
  datatype Location = Location(top: int, right: int, bottom: int, left: int)

  datatype Library = Library(
    // base64.b64decode
    b64decode: string -> Result<seq<bv8>>,
    // Image.open(BytesIO(...)).convert('RGB') as an array
    openRgb: seq<bv8> -> Result<Image>,
    // face_recognition.face_locations(image, model='hog')
    faceLocations: Image -> Result<seq<Location>>,
    // face_recognition.face_encodings(image, locations)
    faceEncodings: (Image, seq<Location>) -> Result<seq<Encoding>>,
    // face_recognition.face_distance([known], unknown)[0]
    faceDistance: (Encoding, Encoding) -> Result<real>,
    // np.mean of the grey image
    meanBrightness: Image -> Result<real>,
    // base64.b64encode(pickle.dumps(e)).decode('utf-8')
    serialize: Encoding -> Result<string>,
    // pickle.loads(base64.b64decode(s))
    deserialize: string -> Result<Encoding>,
    // the text f-strings print for a float
    showReal: real -> string)

  const Tolerance: real := 0.6
  const MinImageSide: int := 200
  const MinFaceHeightFraction: real := 0.2
  const MinBrightness: real := 50.0

  const NoFaceMessage := "Nenhum rosto detectado na imagem"
  const MultipleFacesMessage := "Múltiplos rostos detectados. Use uma foto com apenas um rosto"
  const NoEncodingMessage := "Não foi possível gerar encoding do rosto"
  const EncodeErrorPrefix := "Erro ao processar rosto: "

  const SmallImageMessage := "Imagem muito pequena. Use uma resolução maior"
  const QualityNoFaceMessage := "Nenhum rosto detectado. Posicione seu rosto na câmera"
  const QualityMultipleMessage := "Múltiplos rostos detectados. Apenas um rosto deve estar visível"
  const FarFaceMessage := "Rosto muito distante. Aproxime-se da câmera"
  const DarkImageMessage := "Imagem muito escura. Melhore a iluminação"
  const ValidImageMessage := "Imagem válida"
  const ValidationErrorPrefix := "Erro na validação: "

  const ImageErrorMessage := "Erro ao processar imagem"
  const EncodingFallbackMessage := "Erro ao gerar encoding"
  const SerializeErrorMessage := "Erro ao serializar encoding"
  const RegisteredMessage := "Rosto registrado com sucesso!"
  const AuthNoFaceMessage := "Nenhum rosto detectado"
  const LoadErrorMessage := "Erro ao carregar dados faciais"

  /** `process_image_from_base64`: the data-URI payload is decoded and
      opened as RGB; any failure gives None. */
  function ProcessImageFromBase64(s: string, lib: Library): (image: Option<Image>)
    ensures image.Some? <==>
              lib.b64decode(Text.DataUriPayload(s)).Ok? &&
              lib.openRgb(lib.b64decode(Text.DataUriPayload(s)).value).Ok?
    ensures image.Some? ==>
              image.value == lib.openRgb(lib.b64decode(Text.DataUriPayload(s)).value).value
  {
    match lib.b64decode(Text.DataUriPayload(s))
    case Raised(_) => None
    case Ok(bytes) =>
      match lib.openRgb(bytes)
      case Raised(_) => None
      case Ok(image) => Some(image)
  }

  /** A `data:image/...;base64,` header is stripped: a comma-free payload
      behind a comma-free header gives the same image as the bare payload. */
  lemma DataUriHeaderStripped(header: string, payload: string, lib: Library)
    requires ',' !in header && ',' !in payload
    ensures ProcessImageFromBase64(header + "," + payload, lib) == ProcessImageFromBase64(payload, lib)
  {
    var s := header + "," + payload;
    Text.SplitOnJoin([header, payload], ',');
    assert Text.Join([header, payload], [',']) == s;
    assert s[|header|] == ',';
  }

  /** `detect_faces`: the library's locations, or none when it raises. */
  function DetectFaces(image: Image, lib: Library): (locations: seq<Location>)
    ensures lib.faceLocations(image).Raised? ==> locations == []
    ensures lib.faceLocations(image).Ok? ==> locations == lib.faceLocations(image).value
  {
    match lib.faceLocations(image)
    case Raised(_) => []
    case Ok(locations) => locations
  }

  /** `encode_face`: an encoding exactly when a single face is located and
      the library encodes it; otherwise no encoding and an error text, with
      distinct texts for no face and for several faces. */
  function EncodeFace(image: Image, lib: Library): (r: (Option<Encoding>, Option<string>))
    ensures r.0.Some? <==> r.1.None?
    ensures r.0.Some? <==>
              |DetectFaces(image, lib)| == 1 &&
              lib.faceEncodings(image, DetectFaces(image, lib)).Ok? &&
              |lib.faceEncodings(image, DetectFaces(image, lib)).value| > 0
    ensures r.0.Some? ==> r.0.value == lib.faceEncodings(image, DetectFaces(image, lib)).value[0]
    ensures |DetectFaces(image, lib)| == 0 ==> r.1 == Some(NoFaceMessage)
    ensures |DetectFaces(image, lib)| > 1 ==> r.1 == Some(MultipleFacesMessage)
    ensures r.1.Some? ==> r.1.value != ""
  {
    var locations := DetectFaces(image, lib);
    if |locations| == 0 then (None, Some(NoFaceMessage))
    else if |locations| > 1 then (None, Some(MultipleFacesMessage))
    else
      match lib.faceEncodings(image, locations)
      case Raised(e) => (None, Some(EncodeErrorPrefix + e))
      case Ok(encodings) =>
        if |encodings| == 0 then (None, Some(NoEncodingMessage))
        else (Some(encodings[0]), None)
  }

  /** `compare_faces(known, unknown)`: a match exactly when the distance is at
      most 0.6, with confidence `(1 - distance) * 100`; a raising library
      call gives (False, 0.0). Every match has confidence at least 40, and a
      non-negative distance gives a confidence of at most 100. */
  function CompareFaces(known: Encoding, unknown: Encoding, lib: Library): (r: (bool, real))
    ensures r.0 <==> lib.faceDistance(known, unknown).Ok? && lib.faceDistance(known, unknown).value <= Tolerance
    ensures lib.faceDistance(known, unknown).Ok? ==>
              r.1 == (1.0 - lib.faceDistance(known, unknown).value) * 100.0 && (r.0 <==> r.1 >= 40.0)
    ensures lib.faceDistance(known, unknown).Raised? ==> r == (false, 0.0)
    ensures r.0 ==> r.1 >= 40.0
    ensures lib.faceDistance(known, unknown).Ok? && lib.faceDistance(known, unknown).value >= 0.0 ==> r.1 <= 100.0
  {
    match lib.faceDistance(known, unknown)
    case Raised(_) => (false, 0.0)
    case Ok(distance) =>
      var isMatch := distance <= Tolerance;
      var confidence := (1.0 - distance) * 100.0;
      (isMatch, confidence)
  }

  /** The chain of `validate_image_quality`, in order: a side below 200, no
      face, several faces, face height below 20% of the image height, mean
      brightness below 50 (a raising brightness computation is reported as
      a validation error at that point). */
  function QualityChecks(image: Image, lib: Library): seq<Check<string>>
  {
    var locations := DetectFaces(image, lib);
    var faceHeight := if |locations| > 0 then locations[0].bottom - locations[0].top else 0;
    var brightness := lib.meanBrightness(image);
    [Check(!(image.width < MinImageSide || image.height < MinImageSide), SmallImageMessage),
     Check(|locations| != 0, QualityNoFaceMessage),
     Check(!(|locations| > 1), QualityMultipleMessage),
     Check(!((faceHeight as real) < (image.height as real) * MinFaceHeightFraction), FarFaceMessage),
     Check(brightness.Ok? && !(brightness.value < MinBrightness),
           if brightness.Raised? then ValidationErrorPrefix + brightness.error else DarkImageMessage)]
  }

  /** `validate_image_quality`: the early-return chain itself. */
  function ValidateImageQuality(image: Image, lib: Library): (r: (bool, string))
    ensures r.0 ==> r.1 == ValidImageMessage && |DetectFaces(image, lib)| == 1
    ensures image.width < MinImageSide || image.height < MinImageSide ==> r == (false, SmallImageMessage)
  {
    var height, width := image.height, image.width;
    if width < 200 || height < 200 then (false, SmallImageMessage)
    else
      var faceLocations := DetectFaces(image, lib);
      if |faceLocations| == 0 then (false, QualityNoFaceMessage)
      else if |faceLocations| > 1 then (false, QualityMultipleMessage)
      else
        var faceHeight := faceLocations[0].bottom - faceLocations[0].top;
        if (faceHeight as real) < (height as real) * 0.2 then (false, FarFaceMessage)
        else
          match lib.meanBrightness(image)
          case Raised(e) => (false, ValidationErrorPrefix + e)
          case Ok(meanBrightness) =>
            if meanBrightness < 50.0 then (false, DarkImageMessage)
            else (true, ValidImageMessage)
  }

  /** `validate_image_quality` reports the failure of the first failing
      guard of the reference chain, and is valid exactly when every guard
      passes. */
  lemma ValidateImageQualityIsFirstFailure(image: Image, lib: Library)
    ensures var r, f := ValidateImageQuality(image, lib), FirstFailure(QualityChecks(image, lib));
            (r.0 <==> f.None?) && (!r.0 ==> r.1 == f.value)
  {
    var c := QualityChecks(image, lib);
    assert c == [c[0]] + c[1..];
    assert c[1..] == [c[1]] + c[2..];
    assert c[2..] == [c[2]] + c[3..];
    assert c[3..] == [c[3]] + c[4..];
    assert c[4..] == [c[4]] + [];
    FirstFailureCons(c[4], []);
    FirstFailureCons(c[3], c[4..]);
    FirstFailureCons(c[2], c[3..]);
    FirstFailureCons(c[1], c[2..]);
    FirstFailureCons(c[0], c[1..]);
  }

  /** `{'success', 'encoding', 'message'}` of `register_face`. */
  datatype RegisterResult = RegisterResult(success: bool, encoding: Option<string>, message: string)

  /** `{'success', 'confidence', 'message'}` of `authenticate_face`. */
  datatype AuthResult = AuthResult(success: bool, confidence: real, message: string)

  /** `register_face`: success only when the image decodes, passes the
      quality chain, encodes and serialises; every failure carries no
      encoding, and a success carries the serialised encoding. */
  function RegisterFace(base64Image: string, lib: Library): (r: RegisterResult)
    ensures r.success <==>
              ProcessImageFromBase64(base64Image, lib).Some? &&
              ValidateImageQuality(ProcessImageFromBase64(base64Image, lib).value, lib).0 &&
              EncodeFace(ProcessImageFromBase64(base64Image, lib).value, lib).0.Some? &&
              lib.serialize(EncodeFace(ProcessImageFromBase64(base64Image, lib).value, lib).0.value).Ok?
    ensures !r.success ==> r.encoding.None?
    ensures r.success ==>
              r.encoding == Some(lib.serialize(EncodeFace(ProcessImageFromBase64(base64Image, lib).value, lib).0.value).value) &&
              r.message == RegisteredMessage
    ensures ProcessImageFromBase64(base64Image, lib).None? ==> r.message == ImageErrorMessage
    ensures ProcessImageFromBase64(base64Image, lib).Some? &&
            !ValidateImageQuality(ProcessImageFromBase64(base64Image, lib).value, lib).0 ==>
              r.message == ValidateImageQuality(ProcessImageFromBase64(base64Image, lib).value, lib).1
  {
    match ProcessImageFromBase64(base64Image, lib)
    case None => RegisterResult(false, None, ImageErrorMessage)
    case Some(image) =>
      var (valid, message) := ValidateImageQuality(image, lib);
      if !valid then RegisterResult(false, None, message)
      else
        var (encoding, error) := EncodeFace(image, lib);
        if encoding.None? then
          RegisterResult(false, None, if error.Some? && error.value != "" then error.value else EncodingFallbackMessage)
        else
          match lib.serialize(encoding.value)
          case Raised(_) => RegisterResult(false, None, SerializeErrorMessage)
          case Ok(serialized) => RegisterResult(true, Some(serialized), RegisteredMessage)
  }

  /** Python's `round(x, 2)`: to the nearest hundredth, ties to even. */
  function Round2(x: real): (r: real)
    ensures -0.005 <= r - x <= 0.005
  {
    var y := x * 100.0;
    var f := y.Floor;
    var frac := y - f as real;
    var n := if frac > 0.5 then f + 1
             else if frac < 0.5 then f
             else if f % 2 == 0 then f else f + 1;
    n as real / 100.0
  }

  /** Rounding never leaves [40, 100] from inside it: 40 and 100 are
      hundredths, so a match confidence stays at least 40 once rounded. */
  lemma Round2KeepsRange(x: real)
    ensures 40.0 <= x ==> 40.0 <= Round2(x)
    ensures x <= 100.0 ==> Round2(x) <= 100.0
  {
    var y := x * 100.0;
    var f := y.Floor;
    if 40.0 <= x {
      assert 4000.0 <= y;
      assert 4000 <= f;
    }
    if x <= 100.0 {
      assert f <= 10000;
      if f == 10000 {
        assert y == 10000.0;
      }
    }
  }

  /** `authenticate_face`: 'success' is the comparison's match flag; every
      failure before the comparison reports confidence 0.0; once the
      comparison is reached the confidence is its rounded confidence. */
  function AuthenticateFace(base64Image: string, storedEncoding: string, lib: Library): (r: AuthResult)
    ensures var image := ProcessImageFromBase64(base64Image, lib);
            var reached := image.Some? && EncodeFace(image.value, lib).0.Some? &&
                           lib.deserialize(storedEncoding).Ok?;
            (!reached ==> !r.success && r.confidence == 0.0) &&
            (reached ==>
               var cmp := CompareFaces(lib.deserialize(storedEncoding).value, EncodeFace(image.value, lib).0.value, lib);
               r.success == cmp.0 && r.confidence == Round2(cmp.1))
    ensures r.success ==> 40.0 <= r.confidence
  {
    match ProcessImageFromBase64(base64Image, lib)
    case None => AuthResult(false, 0.0, ImageErrorMessage)
    case Some(image) =>
      var (currentEncoding, error) := EncodeFace(image, lib);
      if currentEncoding.None? then
        AuthResult(false, 0.0, if error.Some? && error.value != "" then error.value else AuthNoFaceMessage)
      else
        match lib.deserialize(storedEncoding)
        case Raised(_) => AuthResult(false, 0.0, LoadErrorMessage)
        case Ok(knownEncoding) =>
          var (isMatch, confidence) := CompareFaces(knownEncoding, currentEncoding.value, lib);
          var rounded := Round2(confidence);
          if isMatch then
            Round2KeepsRange(confidence);
            AuthResult(true, rounded, "Autenticação bem-sucedida! Confiança: " + lib.showReal(rounded) + "%")
          else
            AuthResult(false, rounded, "Rosto não reconhecido. Confiança: " + lib.showReal(rounded) + "%")
  }
}
