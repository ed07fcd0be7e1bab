/** The face endpoints of `app/routes/face_routes.py`: the upload extension
    whitelist and the guard order in front of the OpenCV face system.
    Decoding bytes into an image, base64 decoding and the drawing of the
    processed frame are outside the model. */
module FaceRoutes {
  import opened Common
  import opened Geometry
  import Text
  import FaceController

  const AllowedExtensions: set<string> := {"png", "jpg", "jpeg", "webp"}

  /** `allowed_file`: the name has a dot, and what follows its last dot,
      lowercased, is a whitelisted extension. */
  function AllowedFile(filename: string): (allowed: bool)
    ensures allowed ==> '.' in filename
    ensures allowed ==> 3 <= |Text.AfterLast(filename, '.')| <= 4
  {
    '.' in filename && Text.Lower(Text.AfterLast(filename, '.')) in AllowedExtensions
  }

  /** After a dot, a dot-free tail is what `rsplit('.', 1)[1]` returns. */
  lemma {:induction false} AfterLastOfTail(stem: string, ext: string)
    requires '.' !in ext
    ensures var f := stem + "." + ext;
            '.' in f && Text.AfterLast(f, '.') == ext
  {
    var f := stem + "." + ext;
    assert f[|stem|] == '.';
    assert f[|f| - |ext|..] == ext;
  }

  /** Only the final dot counts: a name is accepted exactly when a dot-free
      tail after some dot is a whitelisted extension, case aside. */
  lemma AllowedFileByLastDot(stem: string, ext: string)
    requires '.' !in ext
    ensures AllowedFile(stem + "." + ext) <==> Text.Lower(ext) in AllowedExtensions
  {
    AfterLastOfTail(stem, ext);
  }

  /** A dot followed by a dot-free tail. */
  predicate LastDotAt(f: string, i: int)
  {
    0 <= i < |f| && f[i] == '.' && '.' !in f[i + 1..]
  }

  /** The dot at i is the last one and what follows it is whitelisted. */
  predicate AcceptedAt(f: string, i: int)
  {
    LastDotAt(f, i) && Text.Lower(f[i + 1..]) in AllowedExtensions
  }

  /** The characterisation over positions: accepted exactly when some dot is
      followed by a dot-free, whitelisted tail. */
  lemma AllowedFileMeaning(f: string)
    ensures AllowedFile(f) <==> exists i :: AcceptedAt(f, i)
  {
    if AllowedFile(f) {
      AcceptedHasLastDot(f);
    }
    if exists i :: AcceptedAt(f, i) {
      var i :| AcceptedAt(f, i);
      LastDotAccepted(f, i);
    }
  }

  lemma AcceptedHasLastDot(f: string)
    requires AllowedFile(f)
    ensures AcceptedAt(f, |f| - |Text.AfterLast(f, '.')| - 1)
  {
    var r := Text.AfterLast(f, '.');
    var i := |f| - |r| - 1;
    assert f[i + 1..] == r;
  }

  lemma LastDotAccepted(f: string, i: int)
    requires LastDotAt(f, i)
    ensures AllowedFile(f) <==> Text.Lower(f[i + 1..]) in AllowedExtensions
  {
    assert f == f[..i] + "." + f[i + 1..];
    AllowedFileByLastDot(f[..i], f[i + 1..]);
  }

  /** A file name without any dot is refused. */
  lemma NoDotRefused(f: string)
    requires '.' !in f
    ensures !AllowedFile(f)
  {
  }

  /** The check ignores case: "FOTO.JPG" is accepted. */
  lemma UpperCaseAccepted()
    ensures AllowedFile("FOTO.JPG")
  {
    assert "FOTO.JPG" == "FOTO" + "." + "JPG";
    AllowedFileByLastDot("FOTO", "JPG");
    assert Text.Lower("JPG") == "jpg";
  }

  /** Only the last extension matters: "a.png.exe" is refused ... */
  lemma InnerExtensionIgnored()
    ensures !AllowedFile("a.png.exe")
  {
    var stem, ext := "a.png", "exe";
    assert "a.png.exe" == stem + "." + ext;
    AllowedFileByLastDot(stem, ext);
    Text.LowerKeepsLowercase(ext);
    ExeNotAllowed();
  }

  /** No whitelisted extension starts with 'e'. */
  lemma ExeNotAllowed()
    ensures "exe" !in AllowedExtensions
  {
    var e := "exe";
    assert e[0] == 'e';
    forall x | x in AllowedExtensions
      ensures x != e
    {
      assert x[0] != 'e';
    }
  }

  /** ... and "a.tar.webp" is accepted. */
  lemma FinalExtensionCounts()
    ensures AllowedFile("a.tar.webp")
  {
    var stem, ext := "a.tar", "webp";
    assert "a.tar.webp" == stem + "." + ext;
    AllowedFileByLastDot(stem, ext);
    Text.LowerKeepsLowercase(ext);
  }

  /** A name ending in a dot has an empty extension and is refused. */
  lemma TrailingDotRefused(stem: string)
    ensures !AllowedFile(stem + ".")
  {
    assert stem + "." == stem + "." + "";
    AllowedFileByLastDot(stem, "");
  }

  // ---------------------------------------------------------------------
  // Endpoints

  /** A JSON answer: its HTTP status and the `success`/`message` pair. */
  datatype Reply = Reply(status: nat, success: bool, message: string)

  /** One uploaded file: its name and its bytes. */
  datatype Upload = Upload(filename: string, content: seq<bv8>)

  const NotAuthenticatedMessage := "Usuário não autenticado"
  const NoFilePartMessage := "Nenhum arquivo enviado"
  const NoFileSelectedMessage := "Nenhum arquivo selecionado"
  const DecodeFailedMessage := "Erro ao processar a imagem"
  const DisallowedTypeMessage := "Tipo de arquivo não permitido"
  const NoImageMessage := "Nenhuma imagem fornecida"
  const ProcessingErrorPrefix := "Erro ao processar a imagem: "
  /** `str(e)` of the IndexError raised by `split(',')[1]` without a comma. */
  const IndexErrorText := "list index out of range"

  /** `session.get('user_name', 'Usuário')`. */
  function UserName(s: map<string, Value>): Value
  {
    if "user_name" in s then s["user_name"] else Text("Usuário")
  }

  /** Whether a register request passes every guard before the face system
      is consulted, given the image its bytes decode to. */
  predicate RegisterGuardsPass(s: map<string, Value>, files: map<string, Upload>,
                               imdecode: seq<bv8> -> Result<Option<Image>>)
  {
    "user_id" in s && "file" in files && files["file"].filename != "" &&
    AllowedFile(files["file"].filename) &&
    imdecode(files["file"].content).Ok? && imdecode(files["file"].content).value.Some?
  }

  /** `register_face_route`: no session user (401), no file part, an empty
      name, a disallowed extension, undecodable bytes (each 400), in that
      order; only then is the face registered, and only then can the stored
      faces change. `cv2.imdecode` runs outside any handler here, so when it
      raises (on an empty upload, say) the exception escapes the view: the
      result is then `Raised` with its text, and Flask answers with its own
      500 page. */
  method RegisterFaceRoute(s: map<string, Value>, files: map<string, Upload>,
                           imdecode: seq<bv8> -> Result<Option<Image>>,
                           system: FaceController.FaceRecognitionSystem,
                           o: FaceController.Optics) returns (r: Result<Reply>)
    modifies system
    ensures "user_id" !in s ==> r == Ok(Reply(401, false, NotAuthenticatedMessage))
    ensures "user_id" in s && "file" !in files ==> r == Ok(Reply(400, false, NoFilePartMessage))
    ensures "user_id" in s && "file" in files && files["file"].filename == "" ==>
              r == Ok(Reply(400, false, NoFileSelectedMessage))
    ensures "user_id" in s && "file" in files && files["file"].filename != "" &&
            !AllowedFile(files["file"].filename) ==>
              r == Ok(Reply(400, false, DisallowedTypeMessage))
    ensures "user_id" in s && "file" in files && files["file"].filename != "" &&
            AllowedFile(files["file"].filename) ==>
              var image := imdecode(files["file"].content);
              (image.Raised? ==> r == Raised(image.error)) &&
              (image == Ok(None) ==> r == Ok(Reply(400, false, DecodeFailedMessage)))
    ensures r.Raised? ==> "file" in files && imdecode(files["file"].content).Raised?
    ensures r.Ok? && r.value.status == 200 <==> RegisterGuardsPass(s, files, imdecode)
    ensures RegisterGuardsPass(s, files, imdecode) ==>
              var image := imdecode(files["file"].content).value.value;
              var faces := o.faceCascade(image);
              r.Ok? &&
              (r.value.success <==>
                 |faces| > 0 && FaceController.ChosenFace(faces).w >= FaceController.MinFaceSize &&
                 FaceController.ChosenFace(faces).h >= FaceController.MinFaceSize &&
                 FaceController.EyesVisible(FaceController.FaceRegion(image, FaceController.ChosenFace(faces)), o)) &&
              (|faces| == 0 ==> r.value.message == FaceController.NoFaceMessage) &&
              (|faces| > 0 && (FaceController.ChosenFace(faces).w < FaceController.MinFaceSize ||
                               FaceController.ChosenFace(faces).h < FaceController.MinFaceSize) ==>
                 r.value.message == FaceController.TooSmallMessage) &&
              ((|faces| > 0 && FaceController.ChosenFace(faces).w >= FaceController.MinFaceSize &&
                FaceController.ChosenFace(faces).h >= FaceController.MinFaceSize &&
                !FaceController.EyesVisible(FaceController.FaceRegion(image, FaceController.ChosenFace(faces)), o)) ==>
                 r.value.message == FaceController.NoEyesMessage) &&
              (r.value.success ==> r.value.message == FaceController.RegisteredMessage)
    ensures !(r.Ok? && r.value.success) ==> system.knownFaces == old(system.knownFaces)
    ensures r.Ok? && r.value.success ==>
              var image := imdecode(files["file"].content).value.value;
              var faces := o.faceCascade(image);
              |faces| > 0 &&
              system.knownFaces == old(system.knownFaces)[s["user_id"] :=
                FaceController.KnownFace(UserName(s), FaceController.FaceRegion(image, FaceController.ChosenFace(faces)))]
  {
    if "user_id" !in s {
      return Ok(Reply(401, false, NotAuthenticatedMessage));
    }
    if "file" !in files {
      return Ok(Reply(400, false, NoFilePartMessage));
    }
    var file := files["file"];
    if file.filename == "" {
      return Ok(Reply(400, false, NoFileSelectedMessage));
    }
    if AllowedFile(file.filename) {
      var image := imdecode(file.content);
      if image.Raised? {
        return Raised(image.error);
      }
      if image.value.None? {
        return Ok(Reply(400, false, DecodeFailedMessage));
      }
      var ok, message := system.RegisterFace(image.value.value, s["user_id"], UserName(s), o);
      return Ok(Reply(200, ok, message));
    }
    return Ok(Reply(400, false, DisallowedTypeMessage));
  }

  /** `verify_face_route`: no session user (401), no 'image' key (400); the
      text between the first and second comma is base64-decoded, so a string
      without a comma raises IndexError and, like a base64 error or an
      exception from `cv2.imdecode`, lands in the 500 handler; undecodable
      image bytes are a 400; only then is the face compared. */
  method VerifyFaceRoute(s: map<string, Value>, json: map<string, string>,
                         b64decode: string -> Result<seq<bv8>>,
                         imdecode: seq<bv8> -> Result<Option<Image>>,
                         system: FaceController.FaceRecognitionSystem,
                         o: FaceController.Optics) returns (r: Reply)
    ensures "user_id" !in s ==> r == Reply(401, false, NotAuthenticatedMessage)
    ensures "user_id" in s && "image" !in json ==> r == Reply(400, false, NoImageMessage)
    ensures "user_id" in s && "image" in json && ',' !in json["image"] ==>
              r == Reply(500, false, ProcessingErrorPrefix + IndexErrorText)
    ensures "user_id" in s && "image" in json && |Text.SplitOn(json["image"], ',')| >= 2 ==>
              var bytes := b64decode(Text.SplitOn(json["image"], ',')[1]);
              (bytes.Raised? ==> r == Reply(500, false, ProcessingErrorPrefix + bytes.error)) &&
              (bytes.Ok? ==>
                 var frame := imdecode(bytes.value);
                 (frame.Raised? ==> r == Reply(500, false, ProcessingErrorPrefix + frame.error)) &&
                 (frame == Ok(None) ==> r == Reply(400, false, DecodeFailedMessage)) &&
                 (r.status == 200 <==> frame.Ok? && frame.value.Some?))
    ensures r.status == 200 ==> "user_id" in s && "image" in json && |Text.SplitOn(json["image"], ',')| >= 2
    ensures r.success ==> "user_id" in s && s["user_id"] in system.knownFaces && r.status == 200
    ensures "user_id" in s && "image" in json && |Text.SplitOn(json["image"], ',')| >= 2 &&
            b64decode(Text.SplitOn(json["image"], ',')[1]).Ok? &&
            imdecode(b64decode(Text.SplitOn(json["image"], ',')[1]).value).Ok? &&
            imdecode(b64decode(Text.SplitOn(json["image"], ',')[1]).value).value.Some? ==>
              var frame := imdecode(b64decode(Text.SplitOn(json["image"], ',')[1]).value).value.value;
              var uid := s["user_id"];
              var faces := o.faceCascade(frame);
              r.status == 200 &&
              (r.success <==>
                 uid in system.knownFaces && |faces| > 0 &&
                 var region := FaceController.FaceRegion(frame, FaceController.ChosenFace(faces));
                 FaceController.EyesVisible(region, o) &&
                 var diff := o.meanDifference(region, system.knownFaces[uid].faceRegion);
                 diff.Ok? && diff.value < FaceController.MatchThreshold) &&
              (uid !in system.knownFaces ==> r.message == FaceController.UnknownUserMessage) &&
              (uid in system.knownFaces && |faces| == 0 ==> r.message == FaceController.NoFaceMessage) &&
              (uid in system.knownFaces && |faces| > 0 ==>
                 var region := FaceController.FaceRegion(frame, FaceController.ChosenFace(faces));
                 var diff := o.meanDifference(region, system.knownFaces[uid].faceRegion);
                 (!FaceController.EyesVisible(region, o) ==> r.message == FaceController.NoEyesMessage) &&
                 (FaceController.EyesVisible(region, o) && diff.Raised? ==>
                    r.message == FaceController.ProcessingErrorPrefix + diff.error) &&
                 (FaceController.EyesVisible(region, o) && diff.Ok? && diff.value >= FaceController.MatchThreshold ==>
                    r.message == FaceController.MismatchMessage)) &&
              (r.success ==> r.message == FaceController.VerifiedMessage)
  {
    if "user_id" !in s {
      return Reply(401, false, NotAuthenticatedMessage);
    }
    if "image" !in json {
      return Reply(400, false, NoImageMessage);
    }
    var pieces := Text.SplitOn(json["image"], ',');
    Text.SplitOnHasSecondPiece(json["image"], ',');
    if |pieces| < 2 {
      return Reply(500, false, ProcessingErrorPrefix + IndexErrorText);
    }
    var bytes := b64decode(pieces[1]);
    if bytes.Raised? {
      return Reply(500, false, ProcessingErrorPrefix + bytes.error);
    }
    var frame := imdecode(bytes.value);
    if frame.Raised? {
      return Reply(500, false, ProcessingErrorPrefix + frame.error);
    }
    if frame.value.None? {
      return Reply(400, false, DecodeFailedMessage);
    }
    var ok, message := system.VerifyFace(frame.value.value, s["user_id"], o);
    return Reply(200, ok, message);
  }
}
