/** The download orchestrator (`main`): the textbook id, the mirror loop, the selection, the
    signed request and the file name, with the branch each failure ends in. */
module Download {
  import opened Optional
  import opened JsValues
  import opened Text
  import opened Mirrors
  import opened Selector
  import opened Credentials
  import opened Signer

  /** Everything outside the script that one click depends on. */
  datatype Env = Env(
    fetch: string -> Probe,                 // the metadata request to a URL
    parseJson: string -> Option<JsValue>,   // JSON.parse; None: it throws
    parseUrl: string -> Option<Url>,        // new URL(...); None: it throws
    store: seq<Entry>,                      // localStorage, in index order
    entropy: Entropy,                       // Date.now() and Math.random()
    crypto: Crypto)

  /** The branch a click ends in. */
  datatype Outcome =
    | MissingId                              // no contentId in the page URL
    | NoConfig                               // "cannot fetch the download configuration"
    | PdfMissing                             // "no PDF in this textbook's metadata"
    | ParseFailed                            // an exception while selecting or signing
    | Request(url: string, fileName: string, authHeader: string)  // the download request issued

  /** The outcome and the metadata URLs requested, in order. */
  datatype Run = Run(outcome: Outcome, contacted: seq<string>)

  /** The name the downloaded file is saved under. */
  function SaveName(title: JsValue): (name: string)
    ensures EndsWith(name, ".pdf")
    ensures title.Str? ==> name[..|name| - 4] == title.s
  {
    JsToString(title) + ".pdf"
  }

  /** `authEncrypt(url, 'GET')` in the environment `env`. */
  function SignFor(url: string, env: Env): Option<string>
  {
    AuthEncrypt(url, "GET", env.entropy, env.parseUrl, env.store, env.parseJson, env.crypto)
  }

  /** How the script dispatches on a truthy metadata document `body`: "no PDF" exactly when
      the selection finds none; a parse failure exactly when the selection throws or the
      signer rejects; otherwise the request for the selected storage URL, saved under the
      title's name and carrying the signer's header. */
  predicate Dispatched(o: Outcome, body: JsValue, env: Env)
  {
    && Truthy(body)
    && (o.PdfMissing? <==> Select(body).NoPdf?)
    && (o.ParseFailed? <==>
          || Select(body).Threw?
          || (Select(body).Selected? && SignFor(JsToString(Select(body).storage), env).None?))
    && (o.Request? <==>
          Select(body).Selected? && SignFor(JsToString(Select(body).storage), env).Some?)
    && (o.Request? ==>
          && o.url == JsToString(Select(body).storage)
          && o.fileName == SaveName(Select(body).title)
          && SignFor(o.url, env) == Some(o.authHeader))
  }

  /** What the script does with the metadata once the mirror loop is over. */
  function AfterProbing(found: Option<JsValue>, env: Env): (o: Outcome)
    ensures o.NoConfig? <==> found.None? || !Truthy(found.value)
    ensures found.Some? && Truthy(found.value) ==> Dispatched(o, found.value, env)
  {
    if found.None? || !Truthy(found.value) then NoConfig
    else match Select(found.value)
      case Threw => ParseFailed
      case NoPdf => PdfMissing
      case Selected(title, storage) =>
        var url := JsToString(storage);
        match SignFor(url, env)
        case None => ParseFailed
        case Some(header) => Request(url, SaveName(title), header)
  }

  /** What the last requested mirror answered; a network error when none was requested. */
  function LastAnswer(contacted: seq<string>, fetch: string -> Probe): Probe
  {
    if |contacted| == 0 then NetErr else fetch(contacted[|contacted| - 1])
  }

  /** One click of the download button on the page whose contentId parameter is `contentId`. */
  function Main(contentId: Option<string>, env: Env): (run: Run)
    ensures run.outcome.MissingId? <==> contentId.None? || contentId.value == ""
    ensures run.outcome.MissingId? ==> run.contacted == []
    ensures !run.outcome.MissingId? ==>
              var urls := MirrorUrls(contentId.value, MirrorCount);
              && 1 <= |run.contacted| <= MirrorCount
              && run.contacted == urls[..|run.contacted|]
              && (forall k :: 0 <= k < |run.contacted| - 1 ==> Failed(env.fetch(urls[k])))
    ensures run.outcome.Request? ==>
              && env.fetch(run.contacted[|run.contacted| - 1]).OkJson?
              && Truthy(env.fetch(run.contacted[|run.contacted| - 1]).body)
              && EndsWith(run.outcome.fileName, ".pdf")
    ensures run.outcome.Request? && Locate(env.store, env.parseJson).None? ==>
              run.outcome.authHeader == ""
    ensures !run.outcome.MissingId? ==>
              var last := LastAnswer(run.contacted, env.fetch);
              && (run.outcome.NoConfig? <==> !(last.OkJson? && Truthy(last.body)))
              && (last.OkJson? && Truthy(last.body) ==> Dispatched(run.outcome, last.body, env))
    ensures !run.outcome.MissingId? && |run.contacted| < MirrorCount ==>
              LastAnswer(run.contacted, env.fetch).OkJson?
  {
    if contentId.None? || contentId.value == "" then Run(MissingId, [])
    else
      var urls := MirrorUrls(contentId.value, MirrorCount);
      ResolveFirstOk(urls, env.fetch);
      var r := Resolve(urls, env.fetch);
      Run(AfterProbing(r.found, env), r.contacted)
  }

  /** When every mirror fails, each of the four is requested once, in order, and no download is
      attempted. */
  lemma AllMirrorsFail(id: string, env: Env)
    requires id != ""
    requires forall i :: 1 <= i <= MirrorCount ==> Failed(env.fetch(MirrorUrl(i, id)))
    ensures Main(Some(id), env) == Run(NoConfig, [MirrorUrl(1, id), MirrorUrl(2, id),
                                                  MirrorUrl(3, id), MirrorUrl(4, id)])
  {
    var urls := MirrorUrls(id, MirrorCount);
    assert forall k :: 0 <= k < |urls| ==> Failed(env.fetch(urls[k])) by {
      forall k | 0 <= k < |urls| ensures Failed(env.fetch(urls[k])) {
        assert urls[k] == MirrorUrl(k + 1, id);
      }
    }
    ResolveAllFailed(urls, env.fetch);
  }

  /** The first mirror that answers OK with a body ends the loop: the mirrors after it are
      never requested, whatever they would have answered. */
  lemma FirstOkMirrorEndsProbing(id: string, env: Env, i: nat)
    requires id != ""
    requires 1 <= i <= MirrorCount && env.fetch(MirrorUrl(i, id)).OkJson?
    requires forall k :: 1 <= k < i ==> Failed(env.fetch(MirrorUrl(k, id)))
    ensures Main(Some(id), env).contacted == MirrorUrls(id, i)
  {
    var urls := MirrorUrls(id, MirrorCount);
    assert forall k :: 0 <= k < i - 1 ==> Failed(env.fetch(urls[k])) by {
      forall k | 0 <= k < i - 1 ensures Failed(env.fetch(urls[k])) {
        assert urls[k] == MirrorUrl(k + 1, id);
      }
    }
    ResolveStopsAt(urls, env.fetch, i - 1);
    assert urls[..i] == MirrorUrls(id, i);
  }

  /** An example metadata document: a book titled "Math Book" with one pdf item, stored at
      `https://cdn/x.pdf`. */
  function MathBook(): JsValue
  {
    Obj([("title", Str("Math Book")),
         ("ti_items", Arr([Obj([("ti_format", Str("pdf")),
                                ("ti_storages", Arr([Str("https://cdn/x.pdf")]))])]))])
  }

  /** An example click: mirrors 1 and 2 answer 404 and mirror 3 serves `MathBook()`, for any
      textbook id ("12345", say). Mirror 4 is never requested, the book's first storage URL is
      fetched and the file is saved as "Math Book.pdf", with an empty x-nd-auth header when no
      credential is stored. */
  lemma MathBookExample(env: Env, id: string, u: Url)
    requires id != ""
    requires env.fetch(MirrorUrl(1, id)) == NotOk(404)
    requires env.fetch(MirrorUrl(2, id)) == NotOk(404)
    requires env.fetch(MirrorUrl(3, id)) == OkJson(MathBook())
    requires env.parseUrl("https://cdn/x.pdf") == Some(u)
    requires Locate(env.store, env.parseJson).None?
    ensures Main(Some(id), env)
            == Run(Request("https://cdn/x.pdf", "Math Book.pdf", ""), MirrorUrls(id, 3))
  {
    MathBookSelection();
    MathBookFileName();
    ThirdMirrorServes(env, id, MathBook(), "Math Book", "https://cdn/x.pdf");
  }

  /** The example click with the id and the document left abstract, so that only the mirrors'
      answers and the document's selection matter. */
  lemma ThirdMirrorServes(env: Env, id: string, body: JsValue, title: string, url: string)
    requires id != ""
    requires Failed(env.fetch(MirrorUrl(1, id))) && Failed(env.fetch(MirrorUrl(2, id)))
    requires env.fetch(MirrorUrl(3, id)) == OkJson(body)
    ensures Truthy(body) && Select(body) == Selected(Str(title), Str(url))
              && env.parseUrl(url).Some? && Locate(env.store, env.parseJson).None?
            ==> Main(Some(id), env) == Run(Request(url, SaveName(Str(title)), ""), MirrorUrls(id, 3))
  {
    ThirdMirrorResolves(env, id, body);
    NoCredentialStillDownloads(body, env);
  }

  lemma ThirdMirrorResolves(env: Env, id: string, body: JsValue)
    requires id != ""
    requires Failed(env.fetch(MirrorUrl(1, id))) && Failed(env.fetch(MirrorUrl(2, id)))
    requires env.fetch(MirrorUrl(3, id)) == OkJson(body)
    ensures Resolve(MirrorUrls(id, MirrorCount), env.fetch) == Resolution(Some(body), MirrorUrls(id, 3))
  {
    var urls := MirrorUrls(id, MirrorCount);
    FirstOkMirrorEndsProbing(id, env, 3);
    ResolveFirstOk(urls, env.fetch);
    assert urls[2] == MirrorUrl(3, id);
  }

  /** A missing credential does not stop the download: once a storage URL is selected and
      parses, the request is issued with an empty x-nd-auth header. */
  lemma NoCredentialStillDownloads(body: JsValue, env: Env)
    ensures
      var sel := if Truthy(body) then Select(body) else Threw;
      sel.Selected? && sel.storage.Str? && env.parseUrl(sel.storage.s).Some?
        && Locate(env.store, env.parseJson).None?
      ==> AfterProbing(Some(body), env) == Request(sel.storage.s, SaveName(sel.title), "")
  {
  }

  lemma MathBookSelection()
    ensures Select(MathBook()) == Selected(Str("Math Book"), Str("https://cdn/x.pdf"))
    ensures Truthy(MathBook())
  {
  }

  lemma MathBookFileName()
    ensures SaveName(Str("Math Book")) == "Math Book.pdf"
  {
  }
}
