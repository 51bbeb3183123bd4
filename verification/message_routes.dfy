/** The message router: the upload middleware for PDFs and images (type filter, size limit,
    stored file name) and the ordered route table, plus the two upload routes composed from the
    middleware and their handlers. */
module MessageRoutes {
  import opened Wrappers
  import opened Common
  import opened JsStrings
  import MessageController

  /** Both upload kinds refuse files larger than 50 MiB. */
  const MaxUploadBytes: nat := 50 * 1024 * 1024

  const PdfMimeType := "application/pdf"

  // ---------------------------------------------------------------------------------------
  // path.extname

  /** The index of the last occurrence of `c` in `s`. */
  function LastIndexOf(s: string, c: char): (k: Option<nat>)
    ensures k.None? <==> c !in s
    ensures k.Some? ==> k.value < |s| && s[k.value] == c
                        && forall j | k.value < j < |s| :: s[j] != c
    decreases |s|
  {
    if s == [] then None
    else if s[|s| - 1] == c then Some(|s| - 1)
    else
      var k := LastIndexOf(s[..|s| - 1], c);
      assert s == s[..|s| - 1] + [s[|s| - 1]];
      k
  }

  /** `s` with every trailing '/' removed. */
  function StripTrailingSlashes(s: string): (r: string)
    ensures |r| <= |s| && r == s[..|r|]
    ensures r == [] || r[|r| - 1] != '/'
    ensures |r| > 0 <==> exists i | 0 <= i < |s| :: s[i] != '/'
    decreases |s|
  {
    if s != [] && s[|s| - 1] == '/' then
      var r := StripTrailingSlashes(s[..|s| - 1]);
      assert forall i | 0 <= i < |s| - 1 :: s[..|s| - 1][i] == s[i];
      r
    else s
  }

  /** The last path component of a name that has no trailing '/'. */
  function AfterLastSlash(s: string): (b: string)
    ensures '/' !in b
    ensures '/' !in s ==> b == s
  {
    match LastIndexOf(s, '/')
    case None => s
    case Some(k) => s[k + 1..]
  }

  /** The extension of a last path component: from its last '.' to the end, except that a name
      without a '.', a name whose only leading part is its '.' (".bashrc") and the name ".." have
      none. */
  function ExtOfBase(b: string): (e: string)
    ensures e == [] || (e[0] == '.' && '.' !in e[1..])
    ensures '/' !in b ==> '/' !in e
    ensures '.' !in b ==> e == []
  {
    match LastIndexOf(b, '.')
    case None => []
    case Some(k) =>
      if k == 0 || b == ".." then []
      else
        assert forall j | 0 <= j < |b| - k - 1 :: b[k..][1..][j] == b[k + 1 + j];
        b[k..]
  }

  /** Node's `path.extname`. */
  function Extname(name: string): (e: string)
    ensures e == [] || (e[0] == '.' && '.' !in e[1..])
    ensures '/' !in e
  {
    ExtOfBase(AfterLastSlash(StripTrailingSlashes(name)))
  }

  // ---------------------------------------------------------------------------------------
  // Stored file names

  /** The shape of the nondeterministic prefix `Date.now() + "-" + Math.round(Math.random()*1e9)`:
      non-empty, digits and dashes only. */
  predicate IsUniqueSuffix(suffix: string) {
    |suffix| > 0 && forall i | 0 <= i < |suffix| :: suffix[i] == '-' || '0' <= suffix[i] <= '9'
  }

  /** The disk storage's `filename` callback. */
  function StoredName(suffix: string, originalName: string): (n: string)
    ensures |n| >= |suffix| && n[..|suffix|] == suffix
  {
    suffix + Extname(originalName)
  }

  /** The extension of a name without '/' whose last '.' is at `k > 0`. */
  lemma ExtnameOfPlainName(name: string, k: nat)
    requires '/' !in name && name != ".."
    requires 0 < k < |name| && name[k] == '.'
    requires forall j | k < j < |name| :: name[j] != '.'
    ensures Extname(name) == name[k..]
  {
    assert name[|name| - 1] in name;
    assert StripTrailingSlashes(name) == name;
    assert AfterLastSlash(name) == name;
    assert LastIndexOf(name, '.') == Some(k);
  }

  lemma SuffixHasNoSeparators(suffix: string)
    requires IsUniqueSuffix(suffix)
    ensures '/' !in suffix && '.' !in suffix
  {
    forall i | 0 <= i < |suffix| ensures suffix[i] != '/' && suffix[i] != '.' {
      assert suffix[i] == '-' || '0' <= suffix[i] <= '9';
    }
  }

  /** A stored file keeps the extension of the file the client uploaded. */
  lemma StoredNameKeepsExtension(suffix: string, originalName: string)
    requires IsUniqueSuffix(suffix)
    ensures Extname(StoredName(suffix, originalName)) == Extname(originalName)
  {
    var e := Extname(originalName);
    var n := suffix + e;
    SuffixHasNoSeparators(suffix);
    assert '/' !in n by {
      forall i | 0 <= i < |n| ensures n[i] != '/' {
        if i < |suffix| { assert n[i] == suffix[i]; }
        else { assert n[i] == e[i - |suffix|]; assert e[i - |suffix|] in e; }
      }
    }
    if e == [] {
      assert n == suffix;
      assert n[|n| - 1] in n;
      assert StripTrailingSlashes(n) == n;
      assert AfterLastSlash(n) == n;
    } else {
      assert n[|suffix|] == '.';
      forall j | |suffix| < j < |n| ensures n[j] != '.' {
        assert n[j] == e[1..][j - |suffix| - 1];
        assert e[1..][j - |suffix| - 1] in e[1..];
      }
      assert n != ".." by {
        assert n[0] == suffix[0];
        assert suffix[0] in suffix;
      }
      ExtnameOfPlainName(n, |suffix|);
      assert n[|suffix|..] == e;
    }
  }

  // ---------------------------------------------------------------------------------------
  // File filters

  /** The PDF filter accepts exactly the mimetype "application/pdf". */
  predicate PdfFilter(f: File) {
    f.mimeType == PdfMimeType
  }

  /** The regular expression `/jpeg|jpg|png|gif|webp/`'s `test`: an unanchored match of any
      alternative. */
  predicate ImageTypesTest(s: string) {
    Contains(s, "jpeg") || Contains(s, "jpg") || Contains(s, "png")
    || Contains(s, "gif") || Contains(s, "webp")
  }

  /** The image filter: the lower-cased extension and the (not lower-cased) mimetype must both
      pass the test. */
  predicate ImageFilter(f: File) {
    ImageTypesTest(ToLower(Extname(f.name))) && ImageTypesTest(f.mimeType)
  }

  /** A string missing some character of `sub` cannot contain it. */
  lemma MissingCharRules(s: string, sub: string, c: char)
    requires c in sub && c !in s
    ensures !Contains(s, sub)
  {
  }

  /** A string lacking the letters that tell the five names apart fails the image-type test. */
  lemma NoImageType(s: string)
    requires 'j' !in s && 'p' !in s && ('f' !in s || 'i' !in s) && 'w' !in s
    ensures !ImageTypesTest(s)
  {
    MissingCharRules(s, "jpeg", 'j');
    MissingCharRules(s, "jpg", 'j');
    MissingCharRules(s, "png", 'p');
    if 'f' !in s { MissingCharRules(s, "gif", 'f'); } else { MissingCharRules(s, "gif", 'i'); }
    MissingCharRules(s, "webp", 'w');
  }

  /** `sub` occurs in `a + sub + b` right after `a`. */
  lemma OccursAfter(a: string, sub: string, b: string)
    ensures OccursAt(a + sub + b, sub, |a|)
  {
    assert (a + sub + b)[|a|..|a| + |sub|] == sub;
  }

  /** The extension of `<stem><ext>` for a non-empty stem free of '/' is `ext`, when `ext` is a
      dot followed by no further dot or slash (and the whole name is not ".."). */
  lemma ExtnameOfStem(stem: string, ext: string)
    requires stem != "" && '/' !in stem && stem + ext != ".."
    requires ext != [] && ext[0] == '.' && '/' !in ext && '.' !in ext[1..]
    ensures Extname(stem + ext) == ext
  {
    var name := stem + ext;
    var k := |stem|;
    assert name[k] == '.';
    forall j | k < j < |name| ensures name[j] != '.' {
      assert name[j] == ext[1..][j - k - 1];
    }
    assert '/' !in name by {
      forall i | 0 <= i < |name| ensures name[i] != '/' {
        if i < k { assert name[i] in stem; } else { assert name[i] in ext; }
      }
    }
    ExtnameOfPlainName(name, k);
    assert name[k..] == ext;
  }

  lemma PngPasses()
    ensures ImageTypesTest(ToLower(".PNG")) && ImageTypesTest("image/png")
  {
    var r := ToLower(".PNG");
    assert r[0] == '.' && r[1] == 'p' && r[2] == 'n' && r[3] == 'g';
    assert r == "." + "png" + "";
    OccursAfter(".", "png", "");
    OccursAfter("image/", "png", "");
    assert "image/" + "png" + "" == "image/png";
  }

  /** A PNG whose extension is written in capitals passes: the extension is lower-cased first. */
  lemma ImageFilterLowersExtension(stem: string, size: nat)
    requires stem != "" && '/' !in stem
    ensures ImageFilter(File(stem + ".PNG", "image/png", size))
  {
    assert '.' !in ".PNG"[1..];
    assert |stem + ".PNG"| > 2;
    ExtnameOfStem(stem, ".PNG");
    PngPasses();
  }

  /** The mimetype is not lower-cased: a file declared as "image/PNG" is refused, whatever its
      name. */
  lemma ImageFilterKeepsMimeCase(name: string, size: nat)
    ensures !ImageFilter(File(name, "image/PNG", size))
  {
    NoImageType("image/PNG");
  }

  lemma SvgIsNoImageType()
    ensures !ImageTypesTest(ToLower(".svg"))
  {
    var r := ToLower(".svg");
    assert r[0] == '.' && r[1] == 's' && r[2] == 'v' && r[3] == 'g';
    assert r == ".svg";
    NoImageType(".svg");
  }

  /** A file named `<stem>.svg` is refused on its extension alone, whatever type it declares. */
  lemma ImageFilterRefusesSvg(stem: string, mimeType: string, size: nat)
    requires stem != "" && '/' !in stem
    ensures !ImageFilter(File(stem + ".svg", mimeType, size))
  {
    assert '.' !in ".svg"[1..];
    assert |stem + ".svg"| > 2;
    ExtnameOfStem(stem, ".svg");
    SvgIsNoImageType();
  }

  lemma GifxPasses()
    ensures ImageTypesTest(ToLower(".gifx"))
  {
    var r := ToLower(".gifx");
    assert r[0] == '.' && r[1] == 'g' && r[2] == 'i' && r[3] == 'f' && r[4] == 'x';
    assert r == "." + "gif" + "x";
    OccursAfter(".", "gif", "x");
  }

  /** The test is unanchored: an extension that merely contains one of the names, with any
      mimetype that mentions it anywhere, passes. */
  lemma ImageFilterUnanchored(stem: string, before: string, after: string, size: nat)
    requires stem != "" && '/' !in stem
    ensures ImageFilter(File(stem + ".gifx", before + "gif" + after, size))
  {
    assert '.' !in ".gifx"[1..];
    assert |stem + ".gifx"| > 2;
    ExtnameOfStem(stem, ".gifx");
    GifxPasses();
    OccursAfter(before, "gif", after);
  }

  // ---------------------------------------------------------------------------------------
  // Upload middleware

  datatype UploadKind = PdfUpload | ImageUpload

  /** What `upload.single(field)` leaves for the handler: no file at all, an error passed on to
      the framework's error handler (filter refusal or size limit), or a stored file name. */
  datatype UploadResult = NoFile | Rejected | Stored(filename: string)

  predicate Accepts(kind: UploadKind, f: File) {
    match kind
    case PdfUpload => PdfFilter(f)
    case ImageUpload => ImageFilter(f)
  }

  /** The upload middleware of one kind, with `suffix` standing for the random file-name prefix. */
  function Upload(kind: UploadKind, file: Option<File>, suffix: string): (u: UploadResult)
    ensures u.NoFile? <==> file.None?
    ensures u.Stored? <==> file.Some? && Accepts(kind, file.value) && file.value.size <= MaxUploadBytes
    ensures u.Stored? ==> u.filename == StoredName(suffix, file.value.name)
  {
    match file
    case None => NoFile
    case Some(f) =>
      if !Accepts(kind, f) || f.size > MaxUploadBytes then Rejected
      else Stored(StoredName(suffix, f.name))
  }

  /** `POST /send-pdf/:id`: the PDF upload, then `sendMessageWithPDF`. A refused upload ends in the
      framework's default error response, a 500, before the handler runs. */
  function PostSendPdf(sv: MessageController.Server, caller: UserId, peer: UserId,
                       file: Option<File>, suffix: string, id: MessageId,
                       now: Timestamp, dbUp: bool): (r: MessageController.Handled)
    ensures file.None? ==> r.response == MessageController.BadRequest && r.server == sv
    ensures file.Some? && !(PdfFilter(file.value) && file.value.size <= MaxUploadBytes) ==>
              r.response == MessageController.InternalError && r.server == sv
    ensures r.response.Created? <==>
              file.Some? && PdfFilter(file.value) && file.value.size <= MaxUploadBytes && dbUp
    ensures file.Some? && PdfFilter(file.value) && file.value.size <= MaxUploadBytes && !dbUp ==>
              r == MessageController.Handled(sv, MessageController.InternalError)
    ensures r.response.Created? ==>
              var m := r.response.msg;
              && r.server == MessageController.Deliver(sv, m)
              && m.id == id && m.senderId == caller && m.receiverId == peer
              && !m.seen && m.createdAt == now && m.updatedAt == now
              && m.text.None? && m.image.None?
              && m.document
                   == Some(MessageController.DocumentPath(StoredName(suffix, file.value.name)))
  {
    match Upload(PdfUpload, file, suffix)
    case NoFile => MessageController.SendMessageWithPdf(sv, caller, peer, None, id, now, dbUp)
    case Rejected => MessageController.Handled(sv, MessageController.InternalError)
    case Stored(name) =>
      MessageController.SendMessageWithPdf(sv, caller, peer, Some(name), id, now, dbUp)
  }

  /** `POST /send-image/:id`: the image upload, then `sendMessageWithImage`. */
  function PostSendImage(sv: MessageController.Server, caller: UserId, peer: UserId,
                         file: Option<File>, suffix: string, id: MessageId,
                         now: Timestamp, dbUp: bool): (r: MessageController.Handled)
    ensures file.None? ==> r.response == MessageController.BadRequest && r.server == sv
    ensures file.Some? && !(ImageFilter(file.value) && file.value.size <= MaxUploadBytes) ==>
              r.response == MessageController.InternalError && r.server == sv
    ensures r.response.Created? <==>
              file.Some? && ImageFilter(file.value) && file.value.size <= MaxUploadBytes && dbUp
    ensures file.Some? && ImageFilter(file.value) && file.value.size <= MaxUploadBytes && !dbUp ==>
              r == MessageController.Handled(sv, MessageController.InternalError)
    ensures r.response.Created? ==>
              var m := r.response.msg;
              && r.server == MessageController.Deliver(sv, m)
              && m.id == id && m.senderId == caller && m.receiverId == peer
              && !m.seen && m.createdAt == now && m.updatedAt == now
              && m.text.None? && m.document.None?
              && m.image == Some(MessageController.ImagePath(StoredName(suffix, file.value.name)))
  {
    match Upload(ImageUpload, file, suffix)
    case NoFile => MessageController.SendMessageWithImage(sv, caller, peer, None, id, now, dbUp)
    case Rejected => MessageController.Handled(sv, MessageController.InternalError)
    case Stored(name) =>
      MessageController.SendMessageWithImage(sv, caller, peer, Some(name), id, now, dbUp)
  }

  /** `POST /send/:id`: no upload middleware runs, so the handler never sees a file and the
      message never carries a document. */
  function PostSend(sv: MessageController.Server, caller: UserId, peer: UserId,
                    body: MessageController.TextBody, host: MessageController.ImageHostResult,
                    id: MessageId, now: Timestamp, dbUp: bool): (r: MessageController.Handled)
    ensures r.response.Created? ==> r.response.msg.document.None?
    ensures r.response.Created? ==> r.response.msg.text.Some?
  {
    MessageController.SendMessage(sv, caller, peer, body, None, host, id, now, dbUp)
  }

  // ---------------------------------------------------------------------------------------
  // The route table

  datatype Verb = Get | Post

  /** A path-pattern segment: a literal, or a `:id` parameter. */
  datatype Segment = Literal(text: string) | Param

  datatype Middleware = ProtectRoute | PdfUploadSingle | ImageUploadSingle

  datatype Endpoint =
    | GetUsersForSidebar | GetMessages | SendMessage | MarkMessagesAsSeen
    | SendMessageWithPdf | SendMessageWithImage

  datatype Route = Route(verb: Verb, pattern: seq<Segment>, middleware: seq<Middleware>,
                         endpoint: Endpoint)

  /** The registrations, in the order they are made. */
  const Routes: seq<Route> := [
    Route(Get, [Literal("users")], [ProtectRoute], GetUsersForSidebar),
    Route(Get, [Param], [ProtectRoute], GetMessages),
    Route(Post, [Literal("send"), Param], [ProtectRoute], SendMessage),
    Route(Post, [Literal("mark-seen")], [ProtectRoute], MarkMessagesAsSeen),
    Route(Post, [Literal("send-pdf"), Param], [ProtectRoute, PdfUploadSingle], SendMessageWithPdf),
    Route(Post, [Literal("send-image"), Param], [ProtectRoute, ImageUploadSingle], SendMessageWithImage)
  ]

  /** Literal segments match case-insensitively (the router's default); a parameter matches any
      non-empty segment. */
  predicate SegmentMatches(seg: Segment, s: string) {
    match seg
    case Literal(t) => ToLower(s) == ToLower(t)
    case Param => s != ""
  }

  predicate RouteMatches(r: Route, verb: Verb, path: seq<string>) {
    r.verb == verb && |r.pattern| == |path|
    && forall i | 0 <= i < |path| :: SegmentMatches(r.pattern[i], path[i])
  }

  function FirstMatchFrom(k: nat, verb: Verb, path: seq<string>): (m: Option<nat>)
    requires k <= |Routes|
    ensures m.Some? ==> k <= m.value < |Routes| && RouteMatches(Routes[m.value], verb, path)
                        && forall j | k <= j < m.value :: !RouteMatches(Routes[j], verb, path)
    ensures m.None? ==> forall j | k <= j < |Routes| :: !RouteMatches(Routes[j], verb, path)
    decreases |Routes| - k
  {
    if k == |Routes| then None
    else if RouteMatches(Routes[k], verb, path) then Some(k)
    else FirstMatchFrom(k + 1, verb, path)
  }

  /** The route a request (its verb and the path segments after the mount point) is dispatched
      to: the first registration that matches, if any. */
  function Dispatch(verb: Verb, path: seq<string>): (m: Option<nat>)
    ensures m.Some? ==> m.value < |Routes| && RouteMatches(Routes[m.value], verb, path)
                        && forall j | 0 <= j < m.value :: !RouteMatches(Routes[j], verb, path)
    ensures m.None? ==> forall j | 0 <= j < |Routes| :: !RouteMatches(Routes[j], verb, path)
  {
    FirstMatchFrom(0, verb, path)
  }

  /** Every route authenticates the caller before anything else runs. */
  lemma EveryRouteProtected()
    ensures forall r | r in Routes :: |r.middleware| > 0 && r.middleware[0] == ProtectRoute
  {
  }

  /** `GET /users` is registered before `GET /:id`, so "users" (in any letter case) reaches the
      sidebar listing, and every other single segment is taken as a peer id. */
  lemma UsersIsNotAPeerId(s: string)
    requires s != ""
    ensures ToLower(s) == "users" ==> Dispatch(Get, [s]) == Some(0)
    ensures ToLower(s) != "users" ==> Dispatch(Get, [s]) == Some(1)
    ensures Dispatch(Get, [s]).Some? && Routes[Dispatch(Get, [s]).value].endpoint
              == (if ToLower(s) == "users" then GetUsersForSidebar else GetMessages)
  {
    assert ToLower("users") == "users";
    assert RouteMatches(Routes[1], Get, [s]);
    if ToLower(s) != "users" {
      assert !SegmentMatches(Routes[0].pattern[0], s);
      assert !RouteMatches(Routes[0], Get, [s]);
      assert FirstMatchFrom(1, Get, [s]) == Some(1);
    }
  }
}
