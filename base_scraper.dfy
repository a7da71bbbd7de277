/**
 * The crawl engine of `BaseScraper` (scraper/base_scraper.py): the
 * breadth-first `scrape_images`, the flat `scrape_images_directly` and the
 * `scrape` dispatch. The web, the image download and HTML parsing are
 * parameters: a page is what BeautifulSoup hands the engine, the attribute
 * maps of its `<img>` and `<a>` tags in document order.
 */
module BaseScraper {
  import opened Wrappers
  import opened Strings
  import opened ImageProcess

  /** The attributes of one tag. */
  type Attrs = map<string, string>

  /** A parsed page: the `<img>` tags and the `<a>` tags, each in document order. */
  datatype Page = Page(imgs: seq<Attrs>, anchors: seq<Attrs>)

  /** What `requests.get(url)` does for a page: raise, or answer with a status code and a body. */
  datatype Response = Raised | Response(status: int, page: Page)

  /**
   * The network as the engine sees it: the answer to each page request,
   * and the content `requests.get(url).content` yields for each image URL
   * (`None` when that request raises).
   */
  datatype Web = Web(page: string -> Response, image: string -> Option<Bytes>)

  /** The four per-site hooks the engine calls on every candidate URL. */
  datatype Policy = Policy(
    imgUrlFulfillsConditions: string -> bool,
    preprocessImgUrl: string -> string,
    endpointFulfillsConditions: string -> bool,
    preprocessEndpoint: string -> string)

  /**
   * A constructed scraper: the seed URL, the two flags, the hooks, and the
   * endpoint list that `get_endpoints` produced in the constructor.
   */
  datatype Scraper = Scraper(url: string, scrapeDirectly: bool, overwrite: bool, policy: Policy, endpoints: seq<string>)

  /** The join of the seed URL and an endpoint; only the seed's trailing `/` is looked at. */
  function SeedJoin(url: string, ep: string): string {
    if EndsWith(url, "/") then url + ep else url + "/" + ep
  }

  /** `[self._url] + endpoints_full`: the seed, then every endpoint joined to it, in list order. */
  function InitialQueue(url: string, endpoints: seq<string>): (q: seq<string>)
    ensures |q| == 1 + |endpoints| && q[0] == url
    ensures forall i :: 0 <= i < |endpoints| ==> q[i + 1] == SeedJoin(url, endpoints[i])
  {
    [url] + seq(|endpoints|, i requires 0 <= i < |endpoints| => SeedJoin(url, endpoints[i]))
  }

  /** `s[1:]`, which Python also allows on the empty string. */
  function DropFirst(s: string): string {
    if s == [] then s else s[1..]
  }

  /** The URL appended for a followed link: `curr_url + prep`, or `curr_url + prep[1:]` when `curr_url` ends with `/`. */
  function NextUrl(curr: string, prep: string): string {
    if !EndsWith(curr, "/") then curr + prep else curr + DropFirst(prep)
  }

  /** `img_tag.attrs.get('src', img_tag.attrs.get('data-src', None))` */
  function ImgSrc(tag: Attrs): Option<string> {
    if "src" in tag then Some(tag["src"])
    else if "data-src" in tag then Some(tag["data-src"])
    else None
  }

  /** The save requested for one `<img>` tag: none, or the preprocessed source. */
  function TagSave(p: Policy, tag: Attrs): seq<string> {
    match ImgSrc(tag)
    case None => []
    case Some(src) => if p.imgUrlFulfillsConditions(src) then [p.preprocessImgUrl(src)] else []
  }

  /** The URLs a page's `<img>` tags ask to save, in tag order, when no save raises. */
  function ImageSaves(p: Policy, imgs: seq<Attrs>): seq<string> {
    if imgs == [] then [] else ImageSaves(p, imgs[..|imgs| - 1]) + TagSave(p, imgs[|imgs| - 1])
  }

  /** The URLs handed to `save_image_from_url`, and whether the last of them raised. */
  datatype Saves = Saves(urls: seq<string>, raised: bool)

  /**
   * The `<img>` loop of one page: each accepted, preprocessed source is
   * handed to `save_image_from_url` in tag order, and a save that raises
   * ends the loop, and with it the crawl.
   */
  function PageSaves(p: Policy, image: string -> Option<Bytes>, imgs: seq<Attrs>): Saves {
    if imgs == [] then Saves([], false)
    else
      var prev := PageSaves(p, image, imgs[..|imgs| - 1]);
      if prev.raised then prev
      else
        var t := TagSave(p, imgs[|imgs| - 1]);
        Saves(prev.urls + t, t != [] && SaveRaises(image, t[0]))
  }

  /**
   * The state of one `scrape_images` call: the frontier, the two visited
   * sets, and three traces: the URLs fetched, the URLs saved, and the raw
   * hrefs whose link was appended to the frontier.
   */
  datatype Crawl = Crawl(
    queue: seq<string>,
    visitedUrls: set<string>,
    visitedEndpoints: set<string>,
    fetched: seq<string>,
    saved: seq<string>,
    enqueued: seq<string>)

  /** The part of the crawl state the `<a>` loop updates. */
  datatype Links = Links(queue: seq<string>, visitedEndpoints: set<string>, enqueued: seq<string>)

  /** A link is followed when the crawl is recursive, the href starts with `/`, and the RAW href was not recorded. */
  predicate Follows(recursive: bool, visitedEndpoints: set<string>, href: string) {
    recursive && StartsWith(href, "/") && href !in visitedEndpoints
  }

  /** One `<a>` tag of the page at `curr`: record the PREPROCESSED endpoint and append the joined URL. */
  function AnchorStep(p: Policy, recursive: bool, curr: string, c: Links, a: Attrs): Links {
    if "href" !in a then c
    else
      var href := a["href"];
      if !p.endpointFulfillsConditions(href) then c
      else if Follows(recursive, c.visitedEndpoints, href) then
        var prep := p.preprocessEndpoint(href);
        c.(visitedEndpoints := c.visitedEndpoints + {prep},
           queue := c.queue + [NextUrl(curr, prep)],
           enqueued := c.enqueued + [href])
      else c
  }

  /** All `<a>` tags of the page at `curr`, in order. */
  function Anchors(p: Policy, recursive: bool, curr: string, c: Links, anchors: seq<Attrs>): Links {
    if anchors == [] then c
    else AnchorStep(p, recursive, curr, Anchors(p, recursive, curr, c, anchors[..|anchors| - 1]), anchors[|anchors| - 1])
  }

  /** This iteration raises: the page request does, or one of the page's image saves does. */
  predicate Raises(p: Policy, web: Web, c: Crawl)
    requires c.queue != []
  {
    var url := c.queue[0];
    url !in c.visitedUrls &&
    match web.page(url)
    case Raised => true
    case Response(status, page) => status == 200 && PageSaves(p, web.image, page.imgs).raised
  }

  /** One iteration of the `while` loop; when a save raises, the `<a>` loop is never reached. */
  function Step(p: Policy, recursive: bool, web: Web, c: Crawl): Crawl
    requires c.queue != []
  {
    var url := c.queue[0];
    var popped := c.(queue := c.queue[1..]);
    if url in c.visitedUrls then popped
    else
      var marked := popped.(visitedUrls := c.visitedUrls + {url}, fetched := c.fetched + [url]);
      match web.page(url)
      case Raised => marked
      case Response(status, page) =>
        if status != 200 then marked
        else
          var sv := PageSaves(p, web.image, page.imgs);
          if sv.raised then marked.(saved := c.saved + sv.urls)
          else
            var l := Anchors(p, recursive, url, Links(marked.queue, c.visitedEndpoints, c.enqueued), page.anchors);
            marked.(queue := l.queue, visitedEndpoints := l.visitedEndpoints, enqueued := l.enqueued,
                    saved := c.saved + sv.urls)
  }

  /** How a run ended: the frontier emptied, a page request or an image save raised, or the iteration budget ran out. */
  datatype Status = Finished | Aborted | OutOfFuel

  datatype Outcome = Outcome(crawl: Crawl, status: Status)

  /** At most `fuel` iterations of the loop, from state `c`. */
  function Run(p: Policy, recursive: bool, web: Web, c: Crawl, fuel: nat): Outcome
    decreases fuel
  {
    if c.queue == [] then Outcome(c, Finished)
    else if fuel == 0 then Outcome(c, OutOfFuel)
    else if Raises(p, web, c) then Outcome(Step(p, recursive, web, c), Aborted)
    else Run(p, recursive, web, Step(p, recursive, web, c), fuel - 1)
  }

  /** The state before the first iteration of `scrape_images`. */
  function Start(s: Scraper): Crawl {
    Crawl(InitialQueue(s.url, s.endpoints), {}, {}, [], [], [])
  }

  /** Once a save has raised, later tags change nothing. */
  lemma {:induction false} PageSavesRaisedPrefix(p: Policy, image: string -> Option<Bytes>, imgs: seq<Attrs>, j: nat)
    requires j <= |imgs| && PageSaves(p, image, imgs[..j]).raised
    ensures PageSaves(p, image, imgs) == PageSaves(p, image, imgs[..j])
    decreases |imgs|
  {
    if j == |imgs| {
      assert imgs[..j] == imgs;
    } else {
      var init := imgs[..|imgs| - 1];
      assert init[..j] == imgs[..j];
      PageSavesRaisedPrefix(p, image, init, j);
    }
  }

  /** Before a raise, the tag at `i` adds its own save to those before it. */
  lemma PageSavesNext(p: Policy, image: string -> Option<Bytes>, imgs: seq<Attrs>, i: nat)
    requires i < |imgs| && !PageSaves(p, image, imgs[..i]).raised
    ensures var t := TagSave(p, imgs[i]);
      PageSaves(p, image, imgs[..i + 1]) == Saves(PageSaves(p, image, imgs[..i]).urls + t, t != [] && SaveRaises(image, t[0]))
  {
    assert imgs[..i + 1][..i] == imgs[..i];
  }

  /** One pass of the `for img_tag in img_tags` loop body: save the tag's source when the policy accepts it. */
  method SaveTag(p: Policy, imgTag: Attrs, dest: map<string, Bytes>, download: string -> Option<Bytes>, overwrite: bool,
                 ghost files0: map<string, Bytes>, saved0: seq<string>)
    returns (folder: map<string, Bytes>, saved: seq<string>, raised: bool)
    requires dest == ApplySaves(files0, saved0, download, overwrite)
    ensures saved == saved0 + TagSave(p, imgTag)
    ensures raised == (TagSave(p, imgTag) != [] && SaveRaises(download, TagSave(p, imgTag)[0]))
    ensures folder == ApplySaves(files0, saved, download, overwrite)
  {
    folder, saved, raised := dest, saved0, false;
    var src := if "src" in imgTag then Some(imgTag["src"])
               else if "data-src" in imgTag then Some(imgTag["data-src"]) else None;
    if src.None? {
      return;
    }
    if !p.imgUrlFulfillsConditions(src.value) {
      return;
    }
    var imgUrl := p.preprocessImgUrl(src.value);
    folder, raised := SaveImageFromUrl(folder, imgUrl, download, overwrite);
    ApplySavesSnoc(files0, saved, imgUrl, download, overwrite);
    saved := saved + [imgUrl];
  }

  /**
   * The `for img_tag in img_tags` loop: save every accepted, preprocessed
   * source in tag order, and stop at a save that raises.
   */
  method SaveImages(p: Policy, imgs: seq<Attrs>, dest: map<string, Bytes>, download: string -> Option<Bytes>, overwrite: bool,
                    ghost files0: map<string, Bytes>, saved0: seq<string>)
    returns (folder: map<string, Bytes>, saved: seq<string>, raised: bool)
    requires dest == ApplySaves(files0, saved0, download, overwrite)
    ensures saved == saved0 + PageSaves(p, download, imgs).urls && raised == PageSaves(p, download, imgs).raised
    ensures folder == ApplySaves(files0, saved, download, overwrite)
  {
    folder, saved, raised := dest, saved0, false;
    for i := 0 to |imgs|
      invariant saved == saved0 + PageSaves(p, download, imgs[..i]).urls && !PageSaves(p, download, imgs[..i]).raised
      invariant folder == ApplySaves(files0, saved, download, overwrite)
    {
      PageSavesNext(p, download, imgs, i);
      folder, saved, raised := SaveTag(p, imgs[i], folder, download, overwrite, files0, saved);
      if raised {
        PageSavesRaisedPrefix(p, download, imgs, i + 1);
        return;
      }
    }
    assert imgs[..|imgs|] == imgs;
  }

  /** The `for a in aas` loop of the page at `currUrl`: append the links that are followed. */
  method FollowLinks(p: Policy, recursive: bool, currUrl: string, anchors: seq<Attrs>,
                     queue0: seq<string>, visited0: set<string>, enqueued0: seq<string>)
    returns (urlQueue: seq<string>, visitedEndpoints: set<string>, enqueued: seq<string>)
    ensures Links(urlQueue, visitedEndpoints, enqueued) == Anchors(p, recursive, currUrl, Links(queue0, visited0, enqueued0), anchors)
  {
    urlQueue, visitedEndpoints, enqueued := queue0, visited0, enqueued0;
    for i := 0 to |anchors|
      invariant Links(urlQueue, visitedEndpoints, enqueued) == Anchors(p, recursive, currUrl, Links(queue0, visited0, enqueued0), anchors[..i])
    {
      assert anchors[..i + 1][..i] == anchors[..i];
      var a := anchors[i];
      if "href" !in a {
        continue;
      }
      var endpoint := a["href"];
      if !p.endpointFulfillsConditions(endpoint) {
        continue;
      }
      if recursive && StartsWith(endpoint, "/") && endpoint !in visitedEndpoints {
        var endpointPrep := p.preprocessEndpoint(endpoint);
        visitedEndpoints := visitedEndpoints + {endpointPrep};
        var nextUrl := if !EndsWith(currUrl, "/") then currUrl + endpointPrep
                       else currUrl + (if endpointPrep == [] then [] else endpointPrep[1..]);
        urlQueue := urlQueue + [nextUrl];
        enqueued := enqueued + [endpoint];
      }
    }
    assert anchors[..|anchors|] == anchors;
  }

  /**
   * `scrape_images(dest_folder, recursive)`, running at most `fuel` loop
   * iterations against `web`; the folder is returned with the saves
   * applied.
   */
  method ScrapeImages(s: Scraper, dest: map<string, Bytes>, recursive: bool, web: Web, fuel: nat)
    returns (folder: map<string, Bytes>, fetched: seq<string>, saved: seq<string>, enqueued: seq<string>, status: Status)
    ensures var o := Run(s.policy, recursive, web, Start(s), fuel);
      fetched == o.crawl.fetched && saved == o.crawl.saved && enqueued == o.crawl.enqueued && status == o.status
    ensures folder == ApplySaves(dest, saved, web.image, s.overwrite)
  {
    var p := s.policy;
    var visitedUrls: set<string> := {};
    var visitedEndpoints: set<string> := {};
    var urlQueue := InitialQueue(s.url, s.endpoints);
    fetched, saved, enqueued := [], [], [];
    folder := dest;
    var left := fuel;
    ghost var goal := Run(p, recursive, web, Start(s), fuel);
    while urlQueue != []
      invariant Run(p, recursive, web, Crawl(urlQueue, visitedUrls, visitedEndpoints, fetched, saved, enqueued), left) == goal
      invariant folder == ApplySaves(dest, saved, web.image, s.overwrite)
      decreases left
    {
      if left == 0 {
        status := OutOfFuel;
        return;
      }
      left := left - 1;
      var raised;
      urlQueue, visitedUrls, visitedEndpoints, fetched, saved, enqueued, folder, raised :=
        VisitNext(p, recursive, web, s.overwrite, dest, urlQueue, visitedUrls, visitedEndpoints, fetched, saved, enqueued, folder);
      if raised {
        status := Aborted;
        return;
      }
    }
    status := Finished;
  }

  /** One pass of the `while` body: pop a URL and, when it is new, fetch it, save its images and queue its links. */
  method VisitNext(p: Policy, recursive: bool, web: Web, overwrite: bool, ghost dest: map<string, Bytes>,
                   urlQueue0: seq<string>, visitedUrls0: set<string>, visitedEndpoints0: set<string>,
                   fetched0: seq<string>, saved0: seq<string>, enqueued0: seq<string>, folder0: map<string, Bytes>)
    returns (urlQueue: seq<string>, visitedUrls: set<string>, visitedEndpoints: set<string>,
             fetched: seq<string>, saved: seq<string>, enqueued: seq<string>, folder: map<string, Bytes>, raised: bool)
    requires urlQueue0 != [] && folder0 == ApplySaves(dest, saved0, web.image, overwrite)
    ensures var c := Crawl(urlQueue0, visitedUrls0, visitedEndpoints0, fetched0, saved0, enqueued0);
      Crawl(urlQueue, visitedUrls, visitedEndpoints, fetched, saved, enqueued) == Step(p, recursive, web, c) &&
      raised == Raises(p, web, c)
    ensures folder == ApplySaves(dest, saved, web.image, overwrite)
  {
    urlQueue, visitedUrls, visitedEndpoints, fetched, saved, enqueued, folder, raised :=
      urlQueue0, visitedUrls0, visitedEndpoints0, fetched0, saved0, enqueued0, folder0, false;
    var currUrl := urlQueue[0];
    urlQueue := urlQueue[1..];
    if currUrl in visitedUrls {
      return;
    }
    visitedUrls := visitedUrls + {currUrl};
    fetched := fetched + [currUrl];
    var res := web.page(currUrl);
    if res.Raised? {
      raised := true;
      return;
    }
    if res.status != 200 {
      return;
    }
    var page := res.page;
    folder, saved, raised := SaveImages(p, page.imgs, folder, web.image, overwrite, dest, saved);
    if raised {
      return;
    }
    urlQueue, visitedEndpoints, enqueued :=
      FollowLinks(p, recursive, currUrl, page.anchors, urlQueue, visitedEndpoints, enqueued);
  }

  /**
   * What `scrape_images_directly` hands to `save_image_from_url`: each
   * preprocessed endpoint with an image extension, in list order, up to a
   * save that raises.
   */
  function DirectSaves(p: Policy, image: string -> Option<Bytes>, endpoints: seq<string>): Saves {
    if endpoints == [] then Saves([], false)
    else
      var prev := DirectSaves(p, image, endpoints[..|endpoints| - 1]);
      var prep := p.preprocessEndpoint(endpoints[|endpoints| - 1]);
      if prev.raised || GetImgExt(prep).None? then prev
      else Saves(prev.urls + [prep], SaveRaises(image, prep))
  }

  /** Once a save has raised, later endpoints change nothing. */
  lemma {:induction false} DirectSavesRaisedPrefix(p: Policy, image: string -> Option<Bytes>, endpoints: seq<string>, j: nat)
    requires j <= |endpoints| && DirectSaves(p, image, endpoints[..j]).raised
    ensures DirectSaves(p, image, endpoints) == DirectSaves(p, image, endpoints[..j])
    decreases |endpoints|
  {
    if j == |endpoints| {
      assert endpoints[..j] == endpoints;
    } else {
      var init := endpoints[..|endpoints| - 1];
      assert init[..j] == endpoints[..j];
      DirectSavesRaisedPrefix(p, image, init, j);
    }
  }

  /** Before a raise, the endpoint at `i` adds its own save to those before it. */
  lemma DirectSavesNext(p: Policy, image: string -> Option<Bytes>, endpoints: seq<string>, i: nat)
    requires i < |endpoints| && !DirectSaves(p, image, endpoints[..i]).raised
    ensures var prep := p.preprocessEndpoint(endpoints[i]);
      DirectSaves(p, image, endpoints[..i + 1]) ==
        if GetImgExt(prep).None? then DirectSaves(p, image, endpoints[..i])
        else Saves(DirectSaves(p, image, endpoints[..i]).urls + [prep], SaveRaises(image, prep))
  {
    assert endpoints[..i + 1][..i] == endpoints[..i];
  }

  /** `scrape_images_directly(dest_folder)`: no page is fetched, only the endpoint list is walked. */
  method ScrapeImagesDirectly(s: Scraper, dest: map<string, Bytes>, download: string -> Option<Bytes>)
    returns (folder: map<string, Bytes>, saved: seq<string>, raised: bool)
    ensures DirectSaves(s.policy, download, s.endpoints) == Saves(saved, raised)
    ensures folder == ApplySaves(dest, saved, download, s.overwrite)
  {
    var p, endpoints := s.policy, s.endpoints;
    folder, saved, raised := dest, [], false;
    for i := 0 to |endpoints|
      invariant DirectSaves(p, download, endpoints[..i]) == Saves(saved, false)
      invariant folder == ApplySaves(dest, saved, download, s.overwrite)
    {
      DirectSavesNext(p, download, endpoints, i);
      folder, saved, raised := SaveEndpoint(p, endpoints[i], folder, download, s.overwrite, dest, saved);
      if raised {
        DirectSavesRaisedPrefix(p, download, endpoints, i + 1);
        return;
      }
    }
    assert endpoints[..|endpoints|] == endpoints;
  }

  /** One pass of the `for endpoint in self._endpoints` body. */
  method SaveEndpoint(p: Policy, endpoint: string, dest: map<string, Bytes>, download: string -> Option<Bytes>, overwrite: bool,
                      ghost files0: map<string, Bytes>, saved0: seq<string>)
    returns (folder: map<string, Bytes>, saved: seq<string>, raised: bool)
    requires dest == ApplySaves(files0, saved0, download, overwrite)
    ensures var prep := p.preprocessEndpoint(endpoint);
      saved == saved0 + (if GetImgExt(prep).Some? then [prep] else []) &&
      raised == (GetImgExt(prep).Some? && SaveRaises(download, prep))
    ensures folder == ApplySaves(files0, saved, download, overwrite)
  {
    folder, saved, raised := dest, saved0, false;
    var endpointProcessed := p.preprocessEndpoint(endpoint);
    var imgExt := GetImgExt(endpointProcessed);
    if imgExt.Some? {
      folder, raised := SaveImageFromUrl(folder, endpointProcessed, download, overwrite);
      ApplySavesSnoc(files0, saved, endpointProcessed, download, overwrite);
      saved := saved + [endpointProcessed];
    }
  }

  /** Direct mode never saves anything, because `get_img_ext` never finds an extension. */
  lemma {:induction false} DirectSavesEmpty(p: Policy, image: string -> Option<Bytes>, endpoints: seq<string>)
    ensures DirectSaves(p, image, endpoints) == Saves([], false)
  {
    if endpoints != [] {
      DirectSavesEmpty(p, image, endpoints[..|endpoints| - 1]);
      GetImgExtAlwaysNone(p.preprocessEndpoint(endpoints[|endpoints| - 1]));
    }
  }

  /**
   * `scrape(dest_folder, recursive)`: direct mode when `scrape_directly`,
   * otherwise the breadth-first crawl. Direct mode fetches no page and, as
   * written, saves nothing.
   */
  method Scrape(s: Scraper, dest: map<string, Bytes>, recursive: bool, web: Web, fuel: nat)
    returns (folder: map<string, Bytes>, fetched: seq<string>, saved: seq<string>, enqueued: seq<string>, status: Status)
    ensures s.scrapeDirectly ==>
      fetched == [] && saved == [] && enqueued == [] && status == Finished && folder == dest
    ensures !s.scrapeDirectly ==>
      var o := Run(s.policy, recursive, web, Start(s), fuel);
      fetched == o.crawl.fetched && saved == o.crawl.saved && enqueued == o.crawl.enqueued && status == o.status &&
      folder == ApplySaves(dest, saved, web.image, s.overwrite)
  {
    if s.scrapeDirectly {
      var raised;
      folder, saved, raised := ScrapeImagesDirectly(s, dest, web.image);
      DirectSavesEmpty(s.policy, web.image, s.endpoints);
      fetched, enqueued := [], [];
      status := if raised then Aborted else Finished;
    } else {
      folder, fetched, saved, enqueued, status := ScrapeImages(s, dest, recursive, web, fuel);
    }
  }
}
