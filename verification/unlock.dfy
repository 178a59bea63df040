/**
 * UnlockTool: removing the password from a PDF.
 *
 * The tool first opens the file with the password through pdf.js, which is
 * what checks the password. It then tries a fast route: pdf-lib loads the
 * file ignoring its encryption and saves it, and the result is accepted only
 * if pdf.js can open it again (and fetch its first page, when it has one).
 * When any step of the fast route throws, the tool rebuilds the document
 * instead: every page is rendered by pdf.js onto a canvas, turned into a JPEG
 * and drawn over a fresh page of the same size in a new pdf-lib document.
 *
 * pdf.js, pdf-lib and the browser canvas are outside the model: each is a
 * record of functions (an oracle) that says what every call returns or
 * throws. The documents pdf.js holds open are tracked by a class, so that the
 * model can show that the tool releases each one it opens.
 */
module UnlockPipeline {
  import opened JsBuiltins

  type Bytes = seq<bv8>

  /** A thrown value, by its `name` and `message` ("" when it has none). */
  datatype JsError = JsError(name: string, message: string)

  /** What an awaited call gives: a value, or the error it throws. */
  datatype Result<T> = Ok(value: T) | Throw(error: JsError)

  /** What `getDocument` is given: the file's bytes and, for the protected
      source, the password. */
  datatype DocKey = DocKey(data: Bytes, password: Option<string>)

  /** A page viewport, in PDF points. */
  datatype Viewport = Viewport(width: real, height: real)

  /** A canvas bitmap: its size in pixels and what was drawn on it. */
  datatype Raster = Raster(width: nat, height: nat, pixels: Bytes)

  /** A reference to an object inside a pdf-lib document. */
  datatype LoadedPdf = LoadedPdf(ref: nat)
  datatype EmbeddedImage = EmbeddedImage(ref: nat)

  /** Where an image is drawn on a page. */
  datatype Rect = Rect(x: real, y: real, width: real, height: real)

  /** A page of the rebuilt document: its size and the image drawn on it. */
  datatype OutPage = OutPage(size: Viewport, image: EmbeddedImage, drawnAt: Rect)

  /** pdf.js: opening a document gives its page count; `page` gives the
      scale-1 viewport of a page; `render` paints a page, at a viewport, onto a
      canvas of the given size. */
  datatype PdfJs = PdfJs(
    open: DocKey -> Result<nat>,
    page: (DocKey, nat) -> Result<Viewport>,
    render: (DocKey, nat, Viewport, nat, nat) -> Result<Bytes>)

  /** pdf-lib: `load` with `ignoreEncryption`, `save` of a loaded document,
      `embedJpg` into the document being rebuilt, and `save` of that document
      once its pages are added. */
  datatype PdfLib = PdfLib(
    load: Bytes -> Result<LoadedPdf>,
    save: LoadedPdf -> Result<Bytes>,
    embedJpg: Bytes -> Result<EmbeddedImage>,
    saveRebuilt: seq<OutPage> -> Result<Bytes>)

  /** The browser: whether `getContext('2d')` gives a context, and
      `canvas.toBlob` as JPEG at a quality (None for a null blob). */
  datatype Browser = Browser(
    context2d: bool,
    toJpeg: (Raster, real) -> Option<Bytes>)

  const RenderScale: real := 1.6
  const JpegQuality: real := 0.92

  const CanvasError := JsError("Error", "No se pudo crear el canvas para renderizar")
  const BlobError := JsError("Error", "No se pudo convertir la p\U{e1}gina a imagen")

  /** `page.getViewport({ scale })`. */
  function Scaled(v: Viewport, scale: real): Viewport
  {
    Viewport(v.width * scale, v.height * scale)
  }

  /** `Math.max(1, Math.floor(x))`: a canvas side is whole and never zero. */
  function CanvasSide(x: real): (side: nat)
    ensures side >= 1
    ensures x >= 1.0 ==> side as real <= x < side as real + 1.0
    ensures x < 1.0 ==> side == 1
  {
    if x.Floor >= 1 then x.Floor else 1
  }

  // ---------------------------------------------------------------- specification

  /** One pass of the rebuild loop for page `pageIndex` (counted from 1). */
  function RenderPage(js: PdfJs, lib: PdfLib, browser: Browser, key: DocKey, pageIndex: nat): Result<OutPage>
  {
    match js.page(key, pageIndex)
    case Throw(e) => Throw(e)
    case Ok(base) =>
      var output := Scaled(base, 1.0);
      var view := Scaled(base, RenderScale);
      if !browser.context2d then Throw(CanvasError)
      else
        var w, h := CanvasSide(view.width), CanvasSide(view.height);
        match js.render(key, pageIndex, view, w, h)
        case Throw(e) => Throw(e)
        case Ok(pixels) =>
          match browser.toJpeg(Raster(w, h, pixels), JpegQuality)
          case None => Throw(BlobError)
          case Some(jpg) =>
            match lib.embedJpg(jpg)
            case Throw(e) => Throw(e)
            case Ok(img) => Ok(OutPage(output, img, Rect(0.0, 0.0, output.width, output.height)))
  }

  /** The pages of the rebuilt document after pages 1..count, or the first error. */
  function RenderedUpTo(js: PdfJs, lib: PdfLib, browser: Browser, key: DocKey, count: nat): Result<seq<OutPage>>
  {
    if count == 0 then Ok([])
    else
      match RenderedUpTo(js, lib, browser, key, count - 1)
      case Throw(e) => Throw(e)
      case Ok(pages) =>
        match RenderPage(js, lib, browser, key, count)
        case Throw(e) => Throw(e)
        case Ok(p) => Ok(pages + [p])
  }

  /** rebuildUnlockedPdfFromRender as a value. */
  function Rebuilt(js: PdfJs, lib: PdfLib, browser: Browser, key: DocKey, numPages: nat): Result<Bytes>
  {
    match RenderedUpTo(js, lib, browser, key, numPages)
    case Throw(e) => Throw(e)
    case Ok(pages) => lib.saveRebuilt(pages)
  }

  /** validateUnlockedPdf as a value: pdf.js opens the candidate without a
      password and, when it has pages, fetches page 1. */
  function Probe(js: PdfJs, candidate: Bytes): (r: Result<()>)
    ensures var key := DocKey(candidate, None);
      r.Ok? <==> js.open(key).Ok? && (js.open(key).value > 0 ==> js.page(key, 1).Ok?)
    ensures r.Throw? && js.open(DocKey(candidate, None)).Throw? ==> r.error == js.open(DocKey(candidate, None)).error
  {
    var key := DocKey(candidate, None);
    match js.open(key)
    case Throw(e) => Throw(e)
    case Ok(n) =>
      if n == 0 then Ok(())
      else
        match js.page(key, 1)
        case Throw(e) => Throw(e)
        case Ok(_) => Ok(())
  }

  /** The fast route: load ignoring encryption, save, probe. */
  function FastRoute(js: PdfJs, lib: PdfLib, data: Bytes): (r: Result<Bytes>)
    ensures r.Ok? <==>
      && lib.load(data).Ok?
      && lib.save(lib.load(data).value).Ok?
      && Probe(js, lib.save(lib.load(data).value).value).Ok?
    ensures r.Ok? ==> r.value == lib.save(lib.load(data).value).value
  {
    match lib.load(data)
    case Throw(e) => Throw(e)
    case Ok(doc) =>
      match lib.save(doc)
      case Throw(e) => Throw(e)
      case Ok(candidate) =>
        match Probe(js, candidate)
        case Throw(e) => Throw(e)
        case Ok(_) => Ok(candidate)
  }

  /** The file the user picked; reading it (`arrayBuffer`) may fail. */
  datatype SourceFile = SourceFile(name: string, contents: Result<Bytes>)

  datatype Route = Direct | Rebuild

  /** What one press of the unlock button comes to. */
  datatype UnlockOutcome =
    | MissingInput
    | Unlocked(bytes: Bytes, route: Route)
    | Failed(error: JsError)

  /** unlock as a value. */
  function UnlockResult(js: PdfJs, lib: PdfLib, browser: Browser, file: Option<SourceFile>, password: string): (o: UnlockOutcome)
    ensures o.MissingInput? <==> file.None? || password == ""
  {
    if file.None? || password == "" then MissingInput
    else
      match file.value.contents
      case Throw(e) => Failed(e)
      case Ok(data) =>
        var key := DocKey(data, Some(password));
        match js.open(key)
        case Throw(e) => Failed(e)
        case Ok(numPages) =>
          match FastRoute(js, lib, data)
          case Ok(bytes) => Unlocked(bytes, Direct)
          case Throw(_) =>
            match Rebuilt(js, lib, browser, key, numPages)
            case Ok(bytes) => Unlocked(bytes, Rebuild)
            case Throw(e) => Failed(e)
  }

  /** How many pdf.js documents one press opens: the source, once the file is
      read, and the probe, once pdf-lib has saved a candidate. */
  function SessionsOpened(js: PdfJs, lib: PdfLib, file: Option<SourceFile>, password: string): nat
  {
    if file.None? || password == "" || file.value.contents.Throw? then 0
    else
      var data := file.value.contents.value;
      if js.open(DocKey(data, Some(password))).Throw? then 0
      else
        match lib.load(data)
        case Throw(_) => 1
        case Ok(doc) =>
          match lib.save(doc)
          case Throw(_) => 1
          case Ok(candidate) => if js.open(DocKey(candidate, None)).Ok? then 2 else 1
  }

  // ---------------------------------------------------------------- error messages

  /** The catch block's test: pdf.js's `PasswordException`, or any error
      whose lower-cased message mentions "password". */
  function IsWrongPassword(e: JsError): (wrong: bool)
    ensures wrong <==>
      e.name == "PasswordException" || exists i :: OccursAt(ToLowerCase(e.message), "password", i)
  {
    LowerCaseIncludes(e.message, "password");
    e.name == "PasswordException" || Includes(ToLowerCase(e.message), "password")
  }

  /** `includes` on a lower-cased message finds exactly the occurrences in it. */
  lemma LowerCaseIncludes(message: string, token: string)
    ensures Includes(ToLowerCase(message), token) <==> exists i :: OccursAt(ToLowerCase(message), token, i)
  {
    var lower := ToLowerCase(message);
    if Includes(lower, token) {
      var i :| OccursAt(lower, token, i);
      assert OccursAt(ToLowerCase(message), token, i);
    }
  }

  datatype ToastKind = SuccessToast | ErrorToast
  datatype Toast = Toast(message: string, kind: ToastKind)

  const MissingInputToast := Toast("Por favor ingresa el archivo y la contrase\U{f1}a", ErrorToast)
  const UnlockedToast := Toast("PDF desbloqueado correctamente", SuccessToast)
  const WrongPasswordToast := Toast("Contrase\U{f1}a incorrecta. Int\U{e9}ntalo de nuevo.", ErrorToast)
  const FailedToast := Toast("No se pudo desbloquear el PDF. Verifica el archivo e int\U{e9}ntalo de nuevo.", ErrorToast)

  /** The one notification a press of the button shows. */
  function ToastFor(o: UnlockOutcome): (t: Toast)
    ensures t.kind == SuccessToast <==> o.Unlocked?
    ensures o.Unlocked? ==> t == UnlockedToast
    ensures o.MissingInput? ==> t == MissingInputToast
    ensures o.Failed? && IsWrongPassword(o.error) ==> t == WrongPasswordToast
    ensures o.Failed? && !IsWrongPassword(o.error) ==> t == FailedToast
  {
    match o
    case MissingInput => MissingInputToast
    case Unlocked(_, _) => UnlockedToast
    case Failed(e) => if IsWrongPassword(e) then WrongPasswordToast else FailedToast
  }

  /** A message with no letter w in either case cannot mention "password". */
  lemma {:induction false} NoWNoPassword(e: JsError)
    requires e.name != "PasswordException"
    requires forall i :: 0 <= i < |e.message| ==> e.message[i] != 'w' && e.message[i] != 'W'
    ensures !IsWrongPassword(e)
  {
    var lower := ToLowerCase(e.message);
    forall i ensures !OccursAt(lower, "password", i) {
      if 0 <= i && i + 8 <= |lower| {
        assert lower[i..i + 8][4] == lower[i + 4] == LowerChar(e.message[i + 4]);
      }
    }
  }

  /** "password" written in any mix of letter cases anywhere in the message,
      such as pdf.js's "Incorrect Password", marks a wrong password. */
  lemma PasswordInAnyCase(e: JsError, at: nat)
    requires at + 8 <= |e.message|
    requires forall j :: 0 <= j < 8 ==> LowerChar(e.message[at + j]) == "password"[j]
    ensures IsWrongPassword(e)
  {
    var lower := ToLowerCase(e.message);
    assert lower[at..at + 8] == "password";
    assert OccursAt(lower, "password", at);
  }

  // ---------------------------------------------------------------- properties

  /** The fast route's output is used only when pdf.js opened the source with
      the password, pdf-lib loaded and saved it, and pdf.js opened the saved
      bytes (and fetched their first page, when there is one). */
  lemma DirectRouteIsValidated(js: PdfJs, lib: PdfLib, browser: Browser, file: Option<SourceFile>, password: string, bytes: Bytes)
    requires UnlockResult(js, lib, browser, file, password) == Unlocked(bytes, Direct)
    ensures file.Some? && file.value.contents.Ok?
    ensures js.open(DocKey(file.value.contents.value, Some(password))).Ok?
    ensures lib.load(file.value.contents.value).Ok?
    ensures lib.save(lib.load(file.value.contents.value).value) == Ok(bytes)
    ensures js.open(DocKey(bytes, None)).Ok?
    ensures js.open(DocKey(bytes, None)).value > 0 ==> js.page(DocKey(bytes, None), 1).Ok?
  {
    var data := file.value.contents.value;
    assert FastRoute(js, lib, data) == Ok(bytes);
  }

  /** When the source opens but any step of the fast route throws, the
      outcome is the rebuild's: its bytes, or its error. */
  lemma FastRouteFailureFallsBack(js: PdfJs, lib: PdfLib, browser: Browser, file: SourceFile, password: string, data: Bytes, numPages: nat)
    requires password != "" && file.contents == Ok(data)
    requires js.open(DocKey(data, Some(password))) == Ok(numPages)
    requires FastRoute(js, lib, data).Throw?
    ensures UnlockResult(js, lib, browser, Some(file), password) ==
      match Rebuilt(js, lib, browser, DocKey(data, Some(password)), numPages)
      case Ok(bytes) => Unlocked(bytes, Rebuild)
      case Throw(e) => Failed(e)
  {
  }

  /** A file that cannot be read, or that pdf.js cannot open with the password,
      ends the press with that error and no document. */
  lemma SourceFailureAborts(js: PdfJs, lib: PdfLib, browser: Browser, file: SourceFile, password: string)
    requires password != ""
    requires file.contents.Throw? || js.open(DocKey(file.contents.value, Some(password))).Throw?
    ensures UnlockResult(js, lib, browser, Some(file), password) ==
      Failed(if file.contents.Throw? then file.contents.error
             else js.open(DocKey(file.contents.value, Some(password))).error)
  {
  }

  /** pdf.js rejecting the password (a `PasswordException`) shows the
      wrong-password notification. */
  lemma WrongPasswordIsReported(js: PdfJs, lib: PdfLib, browser: Browser, file: SourceFile, password: string, message: string)
    requires password != "" && file.contents.Ok?
    requires js.open(DocKey(file.contents.value, Some(password))) == Throw(JsError("PasswordException", message))
    ensures ToastFor(UnlockResult(js, lib, browser, Some(file), password)) == WrongPasswordToast
  {
  }

  /** Rendering succeeds through page `count` exactly when every page up to it
      renders, and then it holds those pages in order. */
  lemma {:induction false} RenderedPagesInOrder(js: PdfJs, lib: PdfLib, browser: Browser, key: DocKey, count: nat)
    ensures RenderedUpTo(js, lib, browser, key, count).Ok? <==>
      forall i :: 1 <= i <= count ==> RenderPage(js, lib, browser, key, i).Ok?
    ensures RenderedUpTo(js, lib, browser, key, count).Ok? ==>
      var pages := RenderedUpTo(js, lib, browser, key, count).value;
      |pages| == count && forall i :: 1 <= i <= count ==> pages[i - 1] == RenderPage(js, lib, browser, key, i).value
  {
    if count > 0 {
      RenderedPagesInOrder(js, lib, browser, key, count - 1);
    }
  }

  /** Each rebuilt page has the size of the source page at scale 1, and the
      rendered image covers it exactly. */
  lemma RenderedPageLayout(js: PdfJs, lib: PdfLib, browser: Browser, key: DocKey, pageIndex: nat)
    requires RenderPage(js, lib, browser, key, pageIndex).Ok?
    ensures js.page(key, pageIndex).Ok?
    ensures var p := RenderPage(js, lib, browser, key, pageIndex).value;
      var v := js.page(key, pageIndex).value;
      p.size == v && p.drawnAt == Rect(0.0, 0.0, v.width, v.height)
  {
  }

  /** Once a page fails, rendering stops with that page's error. */
  lemma {:induction false} FirstFailureStops(js: PdfJs, lib: PdfLib, browser: Browser, key: DocKey, failed: nat, count: nat)
    requires 1 <= failed <= count
    requires RenderedUpTo(js, lib, browser, key, failed).Throw?
    ensures RenderedUpTo(js, lib, browser, key, count) == RenderedUpTo(js, lib, browser, key, failed)
    decreases count
  {
    if count > failed {
      FirstFailureStops(js, lib, browser, key, failed, count - 1);
    }
  }

  // ---------------------------------------------------------------- pdf.js documents

  /** A pdf.js document handle: its session and page count. */
  datatype Doc = Doc(id: nat, numPages: nat)

  /** The documents pdf.js holds open, each under a session number. */
  class PdfJsSessions {
    const js: PdfJs
    var live: map<nat, DocKey>
    var nextId: nat

    /** Session numbers are handed out in order and never reused. */
    predicate Valid()
      reads this
    {
      forall id :: id in live ==> id < nextId
    }

    constructor(js: PdfJs)
      ensures this.js == js && live == map[] && nextId == 0 && Valid()
    {
      this.js := js;
      live := map[];
      nextId := 0;
    }

    /** `await pdfjs.getDocument(key).promise`: a new open document. */
    method GetDocument(key: DocKey) returns (r: Result<Doc>)
      requires Valid()
      modifies this
      ensures Valid()
      ensures js.open(key).Ok? ==>
        && r == Ok(Doc(old(nextId), js.open(key).value))
        && live == old(live)[old(nextId) := key] && nextId == old(nextId) + 1
      ensures js.open(key).Throw? ==>
        r == Throw(js.open(key).error) && live == old(live) && nextId == old(nextId)
    {
      var result := js.open(key);
      if result.Throw? {
        return Throw(result.error);
      }
      r := Ok(Doc(nextId, result.value));
      live := live[nextId := key];
      nextId := nextId + 1;
    }

    /** `await doc.getPage(pageIndex)`, giving its viewport at scale 1. */
    method GetPage(doc: Doc, pageIndex: nat) returns (r: Result<Viewport>)
      requires doc.id in live
      ensures r == js.page(live[doc.id], pageIndex)
    {
      r := js.page(live[doc.id], pageIndex);
    }

    /** `await page.render(...).promise` onto a canvas of `width` by `height`. */
    method Render(doc: Doc, pageIndex: nat, view: Viewport, width: nat, height: nat) returns (r: Result<Bytes>)
      requires doc.id in live
      ensures r == js.render(live[doc.id], pageIndex, view, width, height)
    {
      r := js.render(live[doc.id], pageIndex, view, width, height);
    }

    /** `await doc.destroy()`. */
    method Destroy(doc: Doc)
      requires Valid()
      modifies this
      ensures Valid() && live == old(live) - {doc.id} && nextId == old(nextId)
    {
      live := live - {doc.id};
    }
  }

  /** validateUnlockedPdf: the probe document is destroyed on every path,
      also when fetching its first page throws. */
  method ValidateUnlockedPdf(sessions: PdfJsSessions, candidate: Bytes) returns (r: Result<()>)
    requires sessions.Valid()
    modifies sessions
    ensures sessions.Valid() && sessions.live == old(sessions.live)
    ensures sessions.nextId == old(sessions.nextId) + (if sessions.js.open(DocKey(candidate, None)).Ok? then 1 else 0)
    ensures r == Probe(sessions.js, candidate)
  {
    var task := sessions.GetDocument(DocKey(candidate, None));
    if task.Throw? {
      return Throw(task.error);
    }
    var probe := task.value;
    r := Ok(());
    if probe.numPages > 0 {
      var first := sessions.GetPage(probe, 1);
      if first.Throw? {
        r := Throw(first.error);
      }
    }
    sessions.Destroy(probe);
    assert probe.id !in old(sessions.live);
  }

  /** The body of the rebuild loop for one page: render it at scale 1.6 onto a
      canvas, encode the canvas as JPEG and draw it over a page of the
      scale-1 size. */
  method RenderOnePage(sessions: PdfJsSessions, lib: PdfLib, browser: Browser, source: Doc, pageIndex: nat)
    returns (r: Result<OutPage>)
    requires source.id in sessions.live
    ensures r == RenderPage(sessions.js, lib, browser, sessions.live[source.id], pageIndex)
  {
    var page := sessions.GetPage(source, pageIndex);
    if page.Throw? {
      return Throw(page.error);
    }
    var outputViewport := Scaled(page.value, 1.0);
    var renderViewport := Scaled(page.value, RenderScale);
    if !browser.context2d {
      return Throw(CanvasError);
    }
    var width := CanvasSide(renderViewport.width);
    var height := CanvasSide(renderViewport.height);
    var pixels := sessions.Render(source, pageIndex, renderViewport, width, height);
    if pixels.Throw? {
      return Throw(pixels.error);
    }
    var jpg := browser.toJpeg(Raster(width, height, pixels.value), JpegQuality);
    if jpg.None? {
      return Throw(BlobError);
    }
    var img := lib.embedJpg(jpg.value);
    if img.Throw? {
      return Throw(img.error);
    }
    r := Ok(OutPage(outputViewport, img.value, Rect(0.0, 0.0, outputViewport.width, outputViewport.height)));
  }

  /** rebuildUnlockedPdfFromRender: pages 1..numPages in order, then save. */
  method RebuildUnlockedPdfFromRender(sessions: PdfJsSessions, lib: PdfLib, browser: Browser, source: Doc)
    returns (r: Result<Bytes>)
    requires source.id in sessions.live
    ensures r == Rebuilt(sessions.js, lib, browser, sessions.live[source.id], source.numPages)
  {
    var key := sessions.live[source.id];
    var pages: seq<OutPage> := [];
    var pageIndex := 1;
    while pageIndex <= source.numPages
      invariant 1 <= pageIndex <= source.numPages + 1
      invariant RenderedUpTo(sessions.js, lib, browser, key, pageIndex - 1) == Ok(pages)
    {
      var out := RenderOnePage(sessions, lib, browser, source, pageIndex);
      if out.Throw? {
        FirstFailureStops(sessions.js, lib, browser, key, pageIndex, source.numPages);
        return Throw(out.error);
      }
      pages := pages + [out.value];
      pageIndex := pageIndex + 1;
    }
    r := lib.saveRebuilt(pages);
  }

  // ---------------------------------------------------------------- the tool

  /** `downloadBlob(bytes, fileName, mime)`. */
  datatype Download = Download(bytes: Bytes, fileName: string, mime: string)

  /** The state of the unlock tool, and what it has shown and saved so far. */
  class UnlockTool {
    var file: Option<SourceFile>
    var password: string
    var processing: bool
    var toasts: seq<Toast>
    var downloads: seq<Download>

    constructor()
      ensures file == None && password == "" && !processing && toasts == [] && downloads == []
    {
      file := None;
      password := "";
      processing := false;
      toasts := [];
      downloads := [];
    }

    /** handleFileSelected: keep the first file picked, if any. */
    method HandleFileSelected(selected: seq<SourceFile>)
      modifies this
      ensures file == (if |selected| > 0 then Some(selected[0]) else None)
      ensures password == old(password) && processing == old(processing)
      ensures toasts == old(toasts) && downloads == old(downloads)
    {
      file := if |selected| > 0 then Some(selected[0]) else None;
    }

    /** unlock: one press of the button. */
    method Unlock(sessions: PdfJsSessions, lib: PdfLib, browser: Browser)
      requires sessions.Valid()
      modifies this, sessions
      ensures sessions.Valid() && sessions.live == old(sessions.live)
      ensures sessions.nextId == old(sessions.nextId) + SessionsOpened(sessions.js, lib, old(file), old(password))
      ensures var o := UnlockResult(sessions.js, lib, browser, old(file), old(password));
        && toasts == old(toasts) + [ToastFor(o)]
        && downloads == old(downloads) +
             (if o.Unlocked? then [Download(o.bytes, "desbloqueado_" + old(file).value.name, "application/pdf")] else [])
        && password == (if o.Unlocked? then "" else old(password))
        && processing == (if o.MissingInput? then old(processing) else false)
        && file == old(file)
    {
      if file.None? || password == "" {
        toasts := toasts + [MissingInputToast];
        return;
      }
      processing := true;
      var source := file.value;
      var outcome: UnlockOutcome;
      var sourcePdf: Option<Doc> := None;
      if source.contents.Throw? {
        outcome := Failed(source.contents.error);
      } else {
        var sourceBytes := source.contents.value;
        var task := sessions.GetDocument(DocKey(sourceBytes, Some(password)));
        if task.Throw? {
          outcome := Failed(task.error);
        } else {
          sourcePdf := Some(task.value);
          outcome := UnlockOpened(sessions, lib, browser, sourceBytes, task.value);
        }
      }
      if outcome.Unlocked? {
        downloads := downloads + [Download(outcome.bytes, "desbloqueado_" + source.name, "application/pdf")];
        password := "";
      }
      toasts := toasts + [ToastFor(outcome)];
      if sourcePdf.Some? {
        sessions.Destroy(sourcePdf.value);
        assert sourcePdf.value.id !in old(sessions.live);
      }
      processing := false;
    }
  }

  /** The part of unlock that runs once pdf.js has opened the source: the
      fast route, and the rebuild when the fast route throws. */
  method UnlockOpened(sessions: PdfJsSessions, lib: PdfLib, browser: Browser, sourceBytes: Bytes, source: Doc)
    returns (outcome: UnlockOutcome)
    requires sessions.Valid() && source.id in sessions.live
    modifies sessions
    ensures sessions.Valid() && sessions.live == old(sessions.live)
    ensures sessions.nextId == old(sessions.nextId) +
      match lib.load(sourceBytes)
      case Throw(_) => 0
      case Ok(doc) =>
        match lib.save(doc)
        case Throw(_) => 0
        case Ok(candidate) => if sessions.js.open(DocKey(candidate, None)).Ok? then 1 else 0
    ensures outcome ==
      match FastRoute(sessions.js, lib, sourceBytes)
      case Ok(bytes) => Unlocked(bytes, Direct)
      case Throw(_) =>
        match Rebuilt(sessions.js, lib, browser, old(sessions.live)[source.id], source.numPages)
        case Ok(bytes) => Unlocked(bytes, Rebuild)
        case Throw(e) => Failed(e)
  {
    var unlockedBytes: Option<Bytes> := None;
    var candidatePdf := lib.load(sourceBytes);
    if candidatePdf.Ok? {
      var candidateBytes := lib.save(candidatePdf.value);
      if candidateBytes.Ok? {
        var valid := ValidateUnlockedPdf(sessions, candidateBytes.value);
        if valid.Ok? {
          unlockedBytes := Some(candidateBytes.value);
        }
      }
    }
    if unlockedBytes.Some? {
      return Unlocked(unlockedBytes.value, Direct);
    }
    var rebuilt := RebuildUnlockedPdfFromRender(sessions, lib, browser, source);
    outcome := if rebuilt.Ok? then Unlocked(rebuilt.value, Rebuild) else Failed(rebuilt.error);
  }
}
