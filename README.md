# Face-login Flask application, modelled in Dafny

This project models the discrete logic of a small Flask application. The application logs a user in with a fixed password list or with the face seen by a web camera. Around that it offers a dashboard, role-guarded pages, user management, a timeclock and an audit log. The image numerics are treated as opaque inputs: OpenCV, the `face_recognition` library, pickle and base64. What is modelled and proved is the logic around them:

- which faces are kept;
- how an encoding is laid out;
- when two encodings match;
- how the stored faces change;
- the order in which every request is checked;
- who may see which page;
- what SQL the user model issues.

Modules, one per source file (plus three shared helper modules):

| module | file | source |
|---|---|---|
| `Common` | common.dfy | shared `Option`/`Result`, Python truthiness, "first failing check" chains |
| `Text` | text.dfy | `split`, `join`, `rsplit('.', 1)`, ASCII `lower()` |
| `Geometry` | geometry.dfy | face rectangles, the clamped crop window, NumPy slice lengths |
| `FaceUtils` | face_utils.dfy | `app/utils/face_utils.py` — the store of encodings and the matching policy |
| `FaceController` | face_controller.dfy | `app/controllers/face_recognition_controller.py` — the OpenCV-only face system and its motion detector |
| `FaceRecognitionUtils` | face_recognition_utils.dfy | `app/utils/face_recognition_utils.py` — the face_recognition library pipeline |
| `Controllers` | controllers.dfy | `app/controllers/controller.py` — login, user validation, dashboard, audit, timeclock, FaceID guards |
| `Routes` | routes.dfy | `app/routes/routes.py` — session guards, login/logout, the page table, user routes |
| `FaceRoutes` | face_routes.dfy | `app/routes/face_routes.py` — upload whitelist and the face endpoints |
| `Models` | models.dfy | `app/models/models.py` — the SQL and parameters of `Usuario` |

Objects whose fields the source updates in place are classes:

- `FaceUtils.FaceStore`: the two parallel lists `known_face_encodings`/`known_face_ids`, with the invariant that their lengths agree.
- `FaceController.FaceRecognitionSystem`: the `known_faces` map.
- `FaceController.AntiSpoofingDetector`: the `last_frame` field.
- `Controllers.PontoTable`: the timeclock table, whose invariant is that `(usuario_id, data)` is unique.
- `Routes.Session`: the Flask session.

Besides the methods of these classes, some operations are methods:

- the face-matching loop `FaceUtils.CompareFaces`, which the source computes step by step;
- the dashboard builders `Controllers.ObterDadosDashboard` and `Routes.DashboardData`, which update a dictionary in turn;
- the two face endpoints `FaceRoutes.RegisterFaceRoute` and `FaceRoutes.VerifyFaceRoute`, which call into the face system;
- `FaceUtils.EnrolThenIdentify`, which registers and then identifies on a fresh store.

Everything else is functions over values. Library and database calls are function-typed parameters: `Vision`, `Metrics`, `Optics`, `Library`, `store`, `exec`, `unpickle`, `b64decode`, `imdecode`. A Python exception is the `Raised` case of `Common.Result`.

## Model

| member | source | states |
|---|---|---|
| FaceUtils.AspectRatioBounds | my-flask-app/app/utils/face_utils.py:56-63 | the quotient test 0.7 <= w/h <= 1.4 holds exactly when 7h <= 10w <= 14h |
| FaceUtils.PlausibleFaces | my-flask-app/app/utils/face_utils.py:56-63 | keeps exactly the candidates with the admissible aspect ratio and both sides at least 80, never more than given |
| FaceUtils.PlausibleFacesAppend | my-flask-app/app/utils/face_utils.py:56-63 | the filter distributes over concatenation, so detector order is preserved |
| FaceUtils.PlausibleFacesStep | my-flask-app/app/utils/face_utils.py:57-63 | one loop iteration appends the candidate exactly when it passes the filter |
| FaceUtils.DetectedFaces | my-flask-app/app/utils/face_utils.py:35-66 | a missing image gives no faces; every returned face passes the filter |
| FaceUtils.FaceStore.DetectFaces | my-flask-app/app/utils/face_utils.py:35-66 | the loop over the cascade candidates returns exactly the filtered list, in detector order, and [] for a missing image |
| Geometry.CropWindow | my-flask-app/app/utils/face_utils.py:81-87 | the margin crop never leaves the image, contains an in-image face, and extends by the full margin wherever the border allows |
| Geometry.CropWindowSlice | my-flask-app/app/utils/face_utils.py:86-87 | the crop of an in-image face is a non-empty slice of exactly the window's size |
| FaceUtils.SplitEncoding | my-flask-app/app/utils/face_utils.py:238-252 | a full encoding splits into contiguous blocks of 64/256/7/32 values that concatenate back to its first 359 values; a shorter one is all histogram with no other block |
| FaceUtils.ExtractEncoding | my-flask-app/app/utils/face_utils.py:68-87 | the encoder sees a window inside the image that contains an in-image face; where the image allows, that window reaches exactly 10 beyond the face on every side |
| FaceUtils.HuSimilarity | my-flask-app/app/utils/face_utils.py:209-212 | the Hu term 1/(1+distance) lies in (0, 1] |
| FaceUtils.FusedScoreFullLayout | my-flask-app/app/utils/face_utils.py:196-222 | for full encodings the score is 0.30·hist + 0.35·LBP + 0.20·Hu + 0.15·gradient; when a `compareHist` raises, the first raising one of histogram, LBP, gradients is the outcome |
| FaceUtils.FusedScoreShortLayout | my-flask-app/app/utils/face_utils.py:196-222 | for short encodings the score is the weighted histogram correlation alone, or its exception |
| FaceUtils.FusedScoreBounds | my-flask-app/app/utils/face_utils.py:196-222 | with correlations in [-1, 1], a score that is computed lies in (-0.8, 1] |
| FaceUtils.NaturalFace | my-flask-app/app/utils/face_utils.py:254-271 | rejects exactly when the encoding's variance is below 0.001, or a full encoding's LBP block [64, 320) has variance below 0.01; a raising variance accepts |
| FaceUtils.MatchDecision | my-flask-app/app/utils/face_utils.py:181-236 | an exception is the score's own and arises only for two present encodings of equal length; a match has score at least the threshold |
| FaceUtils.SumAppend | my-flask-app/app/utils/face_utils.py:222 | summing the scores list one term at a time is the running total |
| FaceUtils.CompareFaces | my-flask-app/app/utils/face_utils.py:181-236 | the loop's verdict, or the exception of the first `compareHist` that raises, is the decision rule: missing encodings and unequal lengths are `False`, and a match has score >= threshold |
| FaceUtils.NaturalnessGuardScope | my-flask-app/app/utils/face_utils.py:227-236 | the naturalness check decides only when the score exceeds both threshold and 0.95; elsewhere the verdict is score >= threshold, in both directions; an exception in the score is the verdict |
| FaceUtils.SelfComparisonMatches | my-flask-app/app/utils/face_utils.py:196-236 | when every block correlates with itself as 1 without raising, a natural full encoding compared with itself scores exactly 1 and matches at any threshold up to 1 |
| FaceUtils.ShortEncodingsNeverMatch | my-flask-app/app/utils/face_utils.py:196-236 | two short fallback encodings can never match at the default threshold 0.65 (the comparison is `False` or raises) |
| FaceUtils.FaceStore.constructor | my-flask-app/app/utils/face_utils.py:13-16 | both lists start empty and aligned |
| FaceUtils.FaceStore.RegisterFace | my-flask-app/app/utils/face_utils.py:154-179 | zero or several faces and an encoder exception are refused with their messages and change nothing; success appends exactly one encoding and one id, keeping the lists aligned |
| FaceUtils.FirstIndexOf | my-flask-app/app/utils/face_utils.py:292-299 | the first position holding the user's id, None exactly when the id is absent |
| FaceUtils.FaceStore.AuthenticateFace | my-flask-app/app/utils/face_utils.py:273-302 | face-count refusals first; an encoder exception is reported with its text; then success exactly when the stored encoding at the first occurrence of the user's id matches, a mismatch and a raising comparison get their messages, and a user without an entry gets the not-enrolled message |
| FaceUtils.LivenessPasses | my-flask-app/app/utils/face_utils.py:352-395 | liveness passes exactly when all four statistics reach their thresholds, or when the check raised |
| FaceUtils.Consistent | my-flask-app/app/utils/face_utils.py:397-415 | no re-detected face is inconsistent; an exception from the encoder or the comparison counts as consistent; otherwise the comparison at 0.7 decides, so a consistent face scores at least 0.7 |
| FaceUtils.FirstDecisive | my-flask-app/app/utils/face_utils.py:334-350 | where the search stops: the first stored encoding that is accepted or whose comparison raises; every earlier one is neither |
| FaceUtils.FirstDecisiveIsEarliest | my-flask-app/app/utils/face_utils.py:334-344 | first match wins: no accepted candidate precedes the chosen one, whatever the scores, and a raising comparison hides every later candidate |
| FaceUtils.FaceStore.AuthenticateAnyFace | my-flask-app/app/utils/face_utils.py:304-350 | face count and liveness are refused before any comparison; the search stops at the first candidate that is accepted or whose comparison raises: success, with that candidate's id, exactly when it was accepted, the exception's text when it raised, and not-recognised when the search runs out |
| FaceUtils.LoadedAligned | my-flask-app/app/utils/face_utils.py:425-437 | loading gives lists of equal length, each pair coming from one row with a face that unpickles |
| FaceUtils.LoadedIdsFromRows | my-flask-app/app/utils/face_utils.py:425-437 | an id is loaded exactly when some row of that user has a face that unpickles |
| FaceUtils.FaceStore.LoadKnownFacesFromDatabase | my-flask-app/app/utils/face_utils.py:425-437 | the loop resets both lists and refills them with exactly the loaded rows, in row order |
| FaceUtils.EnrolThenIdentify | my-flask-app/app/utils/face_utils.py:154-179 | when the correlation of a block with itself is 1 and does not raise, registering a natural, live face in an empty store and then identifying the same image answers with that user |
| FaceController.LargestFace | my-flask-app/app/controllers/face_recognition_controller.py:124 | the chosen face has maximal area, and every earlier face is strictly smaller, so ties go to the first |
| FaceController.LargestFaceUnique | my-flask-app/app/controllers/face_recognition_controller.py:216 | any index that is a first maximum is the one chosen |
| Geometry.SliceLen | my-flask-app/app/controllers/face_recognition_controller.py:81 | a NumPy slice is never longer than its axis |
| Geometry.FaceSliceEmpty | my-flask-app/app/controllers/face_recognition_controller.py:81-85 | the face slice is empty exactly when the rectangle starts outside the frame |
| FaceController.TooSmallOrOutsideMeaning | my-flask-app/app/controllers/face_recognition_controller.py:84-85 | the size guard rejects exactly the rectangles outside the frame and those with a side below 100 |
| FaceController.AntiSpoofingDetector.constructor | my-flask-app/app/controllers/face_recognition_controller.py:37-46 | no previous frame |
| FaceController.AntiSpoofingDetector.DetectMotion | my-flask-app/app/controllers/face_recognition_controller.py:60-76 | the first call answers True; a returning call stores the current blurred frame; a raising one leaves the state unchanged |
| FaceController.AntiSpoofingDetector.DetectFaceQuality | my-flask-app/app/controllers/face_recognition_controller.py:78-98 | the verdict and message are those of the first failing check, in the order size, contrast, eyes |
| FaceController.FaceRecognitionSystem.constructor | my-flask-app/app/controllers/face_recognition_controller.py:104-114 | no known faces and a fresh detector with no previous frame |
| FaceController.FaceRecognitionSystem.RegisterFace | my-flask-app/app/controllers/face_recognition_controller.py:116-148 | no face, a largest face below 100 and no visible eyes are refused and change nothing; success overwrites exactly the user's entry with the margin-20 region of the largest face |
| FaceController.FaceRecognitionSystem.VerifyFace | my-flask-app/app/controllers/face_recognition_controller.py:192-253 | unknown user first, then no face, no eyes, a raising difference; success exactly when the mean difference is below 30 |
| FaceController.FaceRecognitionSystem.VerifyLiveness | my-flask-app/app/controllers/face_recognition_controller.py:179-190 | motion is consulted before quality; no motion refuses, otherwise the quality verdict decides |
| FaceRecognitionUtils.ProcessImageFromBase64 | my-flask-app/app/utils/face_recognition_utils.py:22-48 | an image exactly when the data-URI payload base64-decodes and opens as RGB, and then the image it opens to |
| FaceRecognitionUtils.DataUriHeaderStripped | my-flask-app/app/utils/face_recognition_utils.py:34-35 | a comma-free payload behind a comma-free header gives the same image as the bare payload |
| FaceRecognitionUtils.DetectFaces | my-flask-app/app/utils/face_recognition_utils.py:49-65 | the library's face locations unchanged, and no locations when the library raises |
| FaceRecognitionUtils.EncodeFace | my-flask-app/app/utils/face_recognition_utils.py:66-96 | an encoding exactly when one face is located and the library encodes it; zero and several faces give their own messages |
| FaceRecognitionUtils.CompareFaces | my-flask-app/app/utils/face_recognition_utils.py:98-123 | a match exactly when the distance is at most 0.6, with confidence (1 − d)·100, so at least 40; an error gives (False, 0.0) |
| FaceRecognitionUtils.ValidateImageQuality | my-flask-app/app/utils/face_recognition_utils.py:125-165 | a valid image has exactly one face; an image below 200 pixels on a side is refused first |
| FaceRecognitionUtils.ValidateImageQualityIsFirstFailure | my-flask-app/app/utils/face_recognition_utils.py:137-161 | the verdict is the first failing check in the order size, no face, several faces, distance, brightness |
| FaceRecognitionUtils.RegisterFace | my-flask-app/app/utils/face_recognition_utils.py:205-264 | success exactly when decoding, validation, encoding and serialisation all succeed; every failure carries no encoding |
| FaceRecognitionUtils.Round2 | my-flask-app/app/utils/face_recognition_utils.py:311 | rounding to two decimals moves the value by at most 0.005 |
| FaceRecognitionUtils.Round2KeepsRange | my-flask-app/app/utils/face_recognition_utils.py:311 | rounding keeps a confidence within [40, 100] |
| FaceRecognitionUtils.AuthenticateFace | my-flask-app/app/utils/face_recognition_utils.py:266-329 | failures before the comparison report confidence 0; after it, success is the match flag, so a success has confidence >= 40 |
| Text.SplitOn | my-flask-app/app/utils/face_recognition_utils.py:34-35 | `split` gives at least one piece and no piece holds the separator |
| Text.JoinSplitOn | my-flask-app/app/utils/face_recognition_utils.py:34-35 | joining the pieces with the separator gives back the string |
| Text.SplitOnHasSecondPiece | my-flask-app/app/routes/face_routes.py:73 | `split(c)[1]` exists exactly when c occurs in the string |
| Text.DataUriPayloadBetweenCommas | my-flask-app/app/utils/face_recognition_utils.py:34-35 | with a comma, the payload is the text between the first and the second comma; without one, the whole string |
| Text.SplitOnJoin | my-flask-app/app/models/models.py:64 | splitting comma-free pieces joined by a comma gives back the pieces |
| Text.Lower | my-flask-app/app/routes/face_routes.py:27 | lowering preserves length and lowers each character |
| Text.LowerIdempotent | my-flask-app/app/controllers/controller.py:301 | lowering twice is lowering once |
| Text.AfterLast | my-flask-app/app/routes/face_routes.py:27 | `rsplit(c, 1)[1]` holds no c and is exactly what follows the last c |
| Controllers.Autenticar | my-flask-app/app/controllers/controller.py:17-35 | a login succeeds only for a listed email with its own password, returning that account; any failure reports invalid credentials |
| Controllers.AutenticarExactlyFixedPairs | my-flask-app/app/controllers/controller.py:21-35 | a login succeeds exactly for the three fixed email/password pairs |
| Controllers.CriarUsuario | my-flask-app/app/controllers/controller.py:38-60 | the store is called only when every check passes, with the six values in column order; success exactly when that call succeeds |
| Controllers.CriarUsuarioIsFirstFailure | my-flask-app/app/controllers/controller.py:41-57 | the validator answers the first failing check, in the order empty field, cargo, status, email, password length |
| Controllers.ObterDadosDashboard | my-flask-app/app/controllers/controller.py:190-217 | the dictionary built by the successive updates has exactly the role's keys and the fixed values |
| Controllers.DashboardKeysByRole | my-flask-app/app/controllers/controller.py:195-215 | every role sees the base keys; environment keys exactly for GOVERNANTE and SUPERVISOR; quality keys exactly for GOVERNANTE |
| Controllers.DashboardKeysNested | my-flask-app/app/controllers/controller.py:195-215 | FUNCIONARIO ⊂ SUPERVISOR ⊂ GOVERNANTE key sets, strictly |
| Controllers.FilterByUser | my-flask-app/app/controllers/controller.py:301 | keeps exactly the records whose user contains the filter, case aside |
| Controllers.FilterByUserAppend | my-flask-app/app/controllers/controller.py:301 | the filter distributes over concatenation, so order is preserved |
| Controllers.ListarRegistros | my-flask-app/app/controllers/controller.py:272-303 | an absent or empty filter lists all three records; otherwise exactly the matching ones |
| Controllers.ListarRegistrosIgnoresCase | my-flask-app/app/controllers/controller.py:301 | lowering the filter first changes nothing |
| Controllers.FilterLowered | my-flask-app/app/controllers/controller.py:301 | filtering by the lowered needle is filtering by the needle |
| Controllers.PontoTable.constructor | my-flask-app/app/controllers/controller.py:153-183 | an empty table, keys unique |
| Controllers.PontoTable.RegistrarPonto | my-flask-app/app/controllers/controller.py:153-183 | missing fields and an outage change nothing; a second entry for the same (user, date) is refused; otherwise one REGISTRADO row is appended and the keys stay unique |
| Controllers.GuardedListing | my-flask-app/app/controllers/controller.py:105-106 | a falsy user id is refused before any query; otherwise the query decides |
| Controllers.ListarTarefasUsuario | my-flask-app/app/controllers/controller.py:103-129 | a falsy user id is refused before any query; otherwise a listing exactly when the query succeeds |
| Controllers.ListarHistorico | my-flask-app/app/controllers/controller.py:131-151 | the same guard before the history query |
| Controllers.RegistrarFaceId | my-flask-app/app/controllers/controller.py:310-329 | a missing id or image is refused; an unknown user gets its message; success exactly for a known user; a raising lookup propagates |
| Controllers.AutenticarFaceId | my-flask-app/app/controllers/controller.py:332-363 | never succeeds; a missing image, nobody enrolled, an error and no recognition each give their own message |
| Routes.Guarded | my-flask-app/app/routes/routes.py:112-155 | no session user redirects to login before the role check; the page renders exactly for a listed role, else the dashboard |
| Routes.ServePage | my-flask-app/app/routes/routes.py:64-236 | every page follows the role table: the dashboard for any user, ponto and tarefas for SUPERVISOR/FUNCIONARIO, relatorios and analises for GOVERNANTE/SUPERVISOR, usuarios, auditoria and (as corrected) meio-ambiente for GOVERNANTE; without a user every page redirects to login, and a refused role to the dashboard |
| Routes.AccessByRole | my-flask-app/app/routes/routes.py:64-236 | GOVERNANTE sees usuarios and auditoria but not tarefas; FUNCIONARIO sees ponto but not relatorios; usuarios renders only for GOVERNANTE |
| Routes.MeioAmbienteAsWritten | my-flask-app/app/routes/routes.py:187-190 | without a session user the environment page redirects to login |
| Routes.MeioAmbienteAnswersNobodyLoggedIn | my-flask-app/app/routes/routes.py:187-190 | with a session user the handler returns no response at all |
| Routes.AdministratorGetsNoEnvironmentPage | my-flask-app/app/routes/routes.py:187-190 | the GOVERNANTE administrator gets no response |
| Routes.MeioAmbienteCorrected | my-flask-app/app/routes/routes.py:224-227 | the page renders exactly for a logged-in GOVERNANTE, and every request gets a response |
| Routes.Home | my-flask-app/app/routes/routes.py:34-38 | home redirects to the dashboard when logged in, else to login |
| Routes.Session.constructor | my-flask-app/app/routes/routes.py:40-62 | an empty session |
| Routes.Session.Login | my-flask-app/app/routes/routes.py:40-62 | user, role and email are written exactly when the pair is a fixed account; otherwise the session is unchanged and the login page renders; user_id is never written |
| Routes.LoginGrantsAccountRole | my-flask-app/app/routes/routes.py:47-58 | after a successful login every page answers as that account's role allows |
| Routes.Session.Logout | my-flask-app/app/routes/routes.py:71-75 | the session is emptied, after which home and every guarded page redirect to login |
| Routes.DashboardData | my-flask-app/app/routes/routes.py:77-105 | no session user gives 401; otherwise 200 with exactly the controller's role-dependent keys and its fixed values (42, 87; 76, 3 for GOVERNANTE and SUPERVISOR; 85, 92, 78, 65 for GOVERNANTE) |
| Routes.CadastroFailure | my-flask-app/app/routes/routes.py:169-178 | no failure exactly when all six fields are filled, cargo and status are listed, the email holds '@' and '.', and the password has at least 6 characters; a failure is one of the five validator messages |
| Routes.CadastroFailureIsValidator | my-flask-app/app/routes/routes.py:169-178 | the route's five guards are the controller validator's checks, in the same order |
| Routes.CadastrarUsuario | my-flask-app/app/routes/routes.py:158-185 | non-GOVERNANTE gets 403 before validation; SQL is issued only after all checks pass; 200 exactly when the insert succeeds |
| Routes.CadastrarAgreesWithController | my-flask-app/app/routes/routes.py:158-185 | for a GOVERNANTE, the route issues the same insert as the controller and fails on the same first check |
| Routes.CriarConta | my-flask-app/app/routes/routes.py:12-32 | an account is created only with all four fields, always as FUNCIONARIO; success redirects to login, anything else re-renders the form |
| Routes.EditarUsuario | my-flask-app/app/routes/routes.py:207-214 | a body with an "id" key clashes with the path id and fails with 400 before any SQL; otherwise the model's update with the body's values, then the id |
| Routes.ExcluirUsuario | my-flask-app/app/routes/routes.py:217-223 | deletes exactly by the given id; 200 exactly when the statement succeeds |
| FaceRoutes.AllowedFile | my-flask-app/app/routes/face_routes.py:26-27 | an accepted name has a dot, and its tail after the last dot has 3 or 4 characters |
| FaceRoutes.AllowedFileMeaning | my-flask-app/app/routes/face_routes.py:26-27 | accepted exactly when some dot is followed by a dot-free tail whose lowered form is png, jpg, jpeg or webp |
| FaceRoutes.AllowedFileByLastDot | my-flask-app/app/routes/face_routes.py:27 | for a name stem.ext with a dot-free ext, only ext decides, case aside |
| FaceRoutes.AfterLastOfTail | my-flask-app/app/routes/face_routes.py:27 | after the final dot, `rsplit('.', 1)[1]` is the dot-free tail |
| FaceRoutes.NoDotRefused | my-flask-app/app/routes/face_routes.py:27 | a name without a dot is refused |
| FaceRoutes.UpperCaseAccepted | my-flask-app/app/routes/face_routes.py:27 | "FOTO.JPG" is accepted |
| FaceRoutes.InnerExtensionIgnored | my-flask-app/app/routes/face_routes.py:27 | "a.png.exe" is refused |
| FaceRoutes.FinalExtensionCounts | my-flask-app/app/routes/face_routes.py:27 | "a.tar.webp" is accepted |
| FaceRoutes.TrailingDotRefused | my-flask-app/app/routes/face_routes.py:27 | a name ending in a dot is refused |
| FaceRoutes.RegisterFaceRoute | my-flask-app/app/routes/face_routes.py:29-60 | 401, then the four 400s in order; an exception from `cv2.imdecode` escapes the view unhandled (`Raised`, Flask's own 500); 200 exactly when every guard passes, and then `success` holds exactly when the largest detected face is at least 100 on each side with visible eyes, each refusal carrying the face system's message; the stored faces change only on success, at the session user's id |
| FaceRoutes.VerifyFaceRoute | my-flask-app/app/routes/face_routes.py:62-102 | 401, then 400 for no image; a string without a comma, a base64 error and an exception from `cv2.imdecode` land in the 500 handler with their text; bytes that decode to no image give 400; 200 exactly when a frame is decoded, and then `success` holds exactly when the user is known, a face is found, its eyes are visible and its mean difference from the stored region is below 30, each refusal carrying the face system's message |
| Models.ConversionsZeroIffNoMarker | my-flask-app/app/models/models.py:64-66 | a string has no placeholder exactly when `%s` does not occur in it |
| Models.DoublePercentIsNoEscape | my-flask-app/app/models/models.py:64-66 | `%%` is no escape: "a%%s" holds one placeholder |
| Models.PercentFree | my-flask-app/app/models/models.py:64 | a string without '%' has no placeholders |
| Models.ConversionsAppend | my-flask-app/app/models/models.py:64-66 | placeholder counts add up over a concatenation whose join does not itself form `%s` |
| Models.ConversionsAppendPercentFree | my-flask-app/app/models/models.py:64-66 | after a '%'-free left part, placeholder counts add up |
| Models.JoinPercentFree | my-flask-app/app/models/models.py:64 | joining '%'-free names gives a '%'-free string |
| Models.PlaceholdersCount | my-flask-app/app/models/models.py:40-43 | n comma-separated "%s" hold exactly n placeholders |
| Models.InsertPlaceholders | my-flask-app/app/models/models.py:40-43 | an insert has exactly one placeholder per value |
| Models.ColumnName | my-flask-app/app/models/models.py:40-41 | column names hold no '%' |
| Models.Names | my-flask-app/app/models/models.py:40-41 | the columns' names, one per column, in order |
| Models.UsuarioCriar | my-flask-app/app/models/models.py:37-47 | inserts into usuario the six values in the order of the six named columns, one per placeholder |
| Models.UsuarioBuscarPorEmail | my-flask-app/app/models/models.py:49-59 | one placeholder, bound to the email |
| Models.Assignments | my-flask-app/app/models/models.py:64 | each keyword name followed by "=%s", in keyword order |
| Models.KeysOf | my-flask-app/app/models/models.py:64 | the keyword names in call order |
| Models.PrefixEach | my-flask-app/app/models/models.py:64 | each string with the same prefix, in order |
| Models.SpaceThenJoin | my-flask-app/app/models/models.py:64 | joining with ", " is joining with "," after prefixing each piece with a space |
| Models.JoinCommaSpace | my-flask-app/app/models/models.py:64 | a ", " join is the first piece, then the others each after ", " |
| Models.SetClauseSplitsIntoAssignments | my-flask-app/app/models/models.py:64 | splitting the SET clause at commas gives back the assignments in keyword order |
| Models.SetClauseConversions | my-flask-app/app/models/models.py:64 | the SET clause has one placeholder per keyword, plus any `%s` inside the names themselves, whatever the names |
| Models.AssignmentConversions | my-flask-app/app/models/models.py:64 | each assignment `k=%s` adds exactly one placeholder to those inside its name |
| Models.UpdateSqlConversions | my-flask-app/app/models/models.py:64-66 | the UPDATE has one placeholder per keyword plus the id's, plus those inside names, whatever the names |
| Models.NameConversionsZero | my-flask-app/app/models/models.py:64 | the names add no placeholder exactly when none of them contains `%s` |
| Models.UsuarioAtualizar | my-flask-app/app/models/models.py:61-70 | the parameters are the keyword values in order, then the id |
| Models.AtualizarPlaceholders | my-flask-app/app/models/models.py:64-66 | the update's placeholders are its parameters plus the markers inside the keyword names, so they agree exactly when no name contains `%s` |
| Models.AtualizarWithoutKeywords | my-flask-app/app/models/models.py:64-66 | with no keywords the SET clause is empty and the only parameter is the id |
| Models.PercentKeyMisalignsPlaceholders | my-flask-app/app/models/models.py:64-66 | a keyword name containing "%s" makes placeholders outnumber parameters |
| Models.UsuarioDeletar | my-flask-app/app/models/models.py:72-78 | one placeholder, bound to the id |
| Models.WrappersForward | my-flask-app/app/models/models.py:80-90 | the module-level wrappers pass their arguments unchanged to the `Usuario` methods |

## Left out

- OpenCV image numerics are function-typed inputs of the model: histogram equalisation, cascades, CLAHE, histograms and their correlation, Hu moments, Sobel, the Laplacian/HSV/Canny statistics, Gaussian blur, frame differences and eye cascades. Their values are floating-point library results.
- The LBP loop of `extract_face_encoding` is part of the encoding oracle. Only its failure consequence is modelled, the short 103-value encoding that `_split_encoding` falls back on.
- The `face_recognition` library calls (`face_locations`, `face_encodings`, `face_distance`) are foreign; they are oracles in `FaceRecognitionUtils.Library`.
- Pickle serialisation (`save_face_encoding`, `load_face_encoding`, `serialize_encoding`, `deserialize_encoding`) is an oracle. No round trip is stated, because the format is opaque.
- Base64 decoding and image decoding (`b64decode`, `cv2.imdecode`, PIL) are oracles. Any of them may raise, `cv2.imdecode` on an empty buffer among others; which inputs make them raise is not modelled. `process_frame`, its drawing and the `processed_image` field of the verify answer are out, as is `face_api_converter.py`.
- MySQL access is out: `get_db`, cursors and `database/db_connection.py`. Statements are modelled as the SQL text and parameter list they would send, and executing one is an oracle returning `Ok` or `Raised`. `buscar_por_id`, `buscar_usuarios_com_faceid`, `verificar_faceid_cadastrado` and `Usuario.get_db` are not defined in `models.py` and are not part of this model. `models.py` defines only a module-level `get_db`, so each `Usuario.get_db()` call (controller.py:66, 109, 137, 159 and 251; routes.py:196) raises AttributeError as written. For `Controllers.ListarTarefasUsuario`, `Controllers.ListarHistorico` and `Controllers.PontoTable.RegistrarPonto` the query oracle is then always `Raised` (for `RegistrarPonto`, the outage). The model keeps the oracle general, so it also covers the evidently intended working connection.
- `criar_tarefa`, `registrar_ponto` and `registrar_auditoria` in `models.py` and `buscar_tarefas_por_usuario` are not modelled. No modelled route or controller calls them; the timeclock table in `Controllers.PontoTable` stands in for the insert.
- `gerar_relatorio` depends on the wall clock and calendar arithmetic.
- `health_check`, `listar_usuarios` (controller and route), `check_face_registered` and `register_face_page` only read the database or render a page.
- The controller's `atualizar_usuario` and `deletar_usuario` are out, because the routes go to the model directly. `FaceIDController.verificar_faceid_cadastrado` is out too; it is a database lookup.
- The JavaScript, the Flask plumbing (`render_template`, `flash`, `jsonify`, upload folders), `Main.py` and the HTTP-level tests are out.
- The module-level singletons are modelled as one instance passed explicitly; there is no concurrency.
- Text.Lower: lowers ASCII letters only, where Python's `lower()` covers all of Unicode.
- Floating point is modelled as `real`, so rounding error in the scores and confidences is not captured.
- FaceRecognitionUtils.Round2: is stated only through its 0.005 error bound. Python's `round` is binary floating point with ties to even.
- A detector rectangle always has positive width and height, ruling out the division by zero `h == 0` would cause in the aspect test.
- JSON and form bodies are maps from field names to text. A `request.json` of None and non-string JSON values are not modelled.
- Controllers.ListarRegistros: ignores the date filters `data_inicial`/`data_final`, which the source accepts and never uses either.
- Controllers.PontoTable.RegistrarPonto: `localizacao` is accepted and unused, as in the source. A database failure is modelled as an outage that raises before any change.
- Models.UsuarioAtualizar: whitespace inside the SQL text is kept exactly as built.
- Models.Conversions: counts the `%s` markers mysql.connector substitutes for a parameter sequence. The connector's other checks and its dictionary form (`%(name)s`) are not modelled.
- FaceUtils.Metrics: which inputs make `cv2.compareHist` or `np.var` raise is not modelled; either may raise on any input. `np.linalg.norm` of the two Hu blocks is taken never to raise.
- The `/api/dashboard-data` route's dictionary code is a copy of the controller's; `Routes.DashboardData` reuses `Controllers.ObterDadosDashboard`.

Notes on the source that the model makes explicit:

- `criar_usuario` validates `status` but never stores it; the insert has the six columns of `Usuario.criar`.
- No modelled code writes `session['user_id']`: `Routes.Session.Login` provably leaves it as it was. So unless another component sets it, both face endpoints answer 401.
- `Models.PercentKeyMisalignsPlaceholders`: a keyword name holding `%s` breaks the one-placeholder-per-parameter correspondence. Keyword names come from the JSON body of `/usuarios/editar`.
- `/usuarios/editar` and `/usuarios/excluir` check no session or role.

## Findings

| source | as written | input that shows it | evidently intended | confidence | as-written member | corrected member |
|---|---|---|---|---|---|---|
| my-flask-app/app/routes/routes.py:187-190, 224-227 | `/meio-ambiente` returns nothing for a logged-in user; its role check sits after the returns of `excluir_usuario` and is unreachable | a session with user "Administrador" and role GOVERNANTE | render `meio_ambiente.html` for GOVERNANTE, redirect other roles to the dashboard | not executed | Routes.MeioAmbienteAsWritten (Routes.AdministratorGetsNoEnvironmentPage) | Routes.MeioAmbienteCorrected |
