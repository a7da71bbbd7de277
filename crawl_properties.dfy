/**
 * What the breadth-first crawl of `scrape_images` guarantees, stated over
 * the step function `Step` and the bounded run `Run` that the engine's
 * method is proved equal to: traces only grow, every URL is fetched at most
 * once, the seed is fetched first, a non-recursive crawl visits exactly the
 * distinct seed URLs, a link whose endpoint the site rewrites is followed
 * again and again while an unrewritten one is followed once, and a
 * recursive crawl over finitely many hrefs ends.
 */
module CrawlProperties {
  import opened Wrappers
  import opened Strings
  import opened ImageProcess
  import opened BaseScraper

  /** No element occurs twice. */
  predicate Distinct(s: seq<string>) {
    forall i, j :: 0 <= i < j < |s| ==> s[i] != s[j]
  }

  /** `a` is a prefix of `b`. */
  predicate IsPrefix(a: seq<string>, b: seq<string>) {
    |a| <= |b| && b[..|a|] == a
  }

  lemma PrefixTrans(a: seq<string>, b: seq<string>, c: seq<string>)
    requires IsPrefix(a, b) && IsPrefix(b, c)
    ensures IsPrefix(a, c)
  {
    assert c[..|a|] == c[..|b|][..|a|];
  }

  /** No page request raises, and no image URL whose download succeeds is named like a directory. */
  ghost predicate NeverRaises(web: Web) {
    forall u :: web.page(u).Response? && !SaveRaises(web.image, u)
  }

  /** The site leaves endpoints as they are (`preprocess_endpoint` returns its argument). */
  ghost predicate KeepsEndpoints(p: Policy) {
    forall h :: p.preprocessEndpoint(h) == h
  }

  // ---------------------------------------------------------------------
  // The `<a>` loop
  // ---------------------------------------------------------------------

  /** With `recursive=False` no link is ever followed. */
  lemma {:induction false} AnchorsNonRecursive(p: Policy, curr: string, c: Links, anchors: seq<Attrs>)
    ensures Anchors(p, false, curr, c, anchors) == c
  {
    if anchors != [] {
      AnchorsNonRecursive(p, curr, c, anchors[..|anchors| - 1]);
    }
  }

  /**
   * The `<a>` loop only appends: the queue and the trace of followed hrefs
   * grow in lockstep, by at most one per tag; every followed href starts
   * with `/` and passes `endpoint_fulfills_conditions`, and the URL queued
   * for it joins the current URL with its preprocessed form.
   */
  lemma {:induction false} AnchorsAppend(p: Policy, recursive: bool, curr: string, c: Links, anchors: seq<Attrs>)
    ensures var l := Anchors(p, recursive, curr, c, anchors);
      |c.queue| <= |l.queue| && |c.enqueued| <= |l.enqueued| &&
      |l.queue| - |c.queue| == |l.enqueued| - |c.enqueued| <= |anchors| &&
      l.queue[..|c.queue|] == c.queue && l.enqueued[..|c.enqueued|] == c.enqueued &&
      c.visitedEndpoints <= l.visitedEndpoints
    ensures var l := Anchors(p, recursive, curr, c, anchors);
      forall k :: |c.enqueued| <= k < |l.enqueued| ==>
        StartsWith(l.enqueued[k], "/") && p.endpointFulfillsConditions(l.enqueued[k]) &&
        l.queue[|c.queue| + (k - |c.enqueued|)] == NextUrl(curr, p.preprocessEndpoint(l.enqueued[k]))
  {
    if anchors != [] {
      var init := anchors[..|anchors| - 1];
      AnchorsAppend(p, recursive, curr, c, init);
      var m := Anchors(p, recursive, curr, c, init);
      var l := AnchorStep(p, recursive, curr, m, anchors[|anchors| - 1]);
      assert l == Anchors(p, recursive, curr, c, anchors);
      if l != m {
        assert l.queue[..|m.queue|] == m.queue && l.enqueued[..|m.enqueued|] == m.enqueued;
        assert l.queue[..|c.queue|] == m.queue[..|c.queue|];
        assert l.enqueued[..|c.enqueued|] == m.enqueued[..|c.enqueued|];
      }
    }
  }

  /**
   * What the `<a>` loop records and why it follows a link. It records the
   * preprocessed form of each followed href, and nothing else. A followed
   * href is the `href` of one of the page's tags. It was followed only
   * when the crawl is recursive and when the raw href was in
   * `visited_endpoints` neither before the loop nor as the recorded form
   * of an href followed earlier in it.
   */
  lemma {:induction false} AnchorsFollowUnvisited(p: Policy, recursive: bool, curr: string, c: Links, anchors: seq<Attrs>)
    ensures var l := Anchors(p, recursive, curr, c, anchors);
      l.visitedEndpoints == c.visitedEndpoints + set j | |c.enqueued| <= j < |l.enqueued| :: p.preprocessEndpoint(l.enqueued[j])
    ensures var l := Anchors(p, recursive, curr, c, anchors);
      forall k :: |c.enqueued| <= k < |l.enqueued| ==>
        recursive && l.enqueued[k] !in c.visitedEndpoints &&
        (forall j :: |c.enqueued| <= j < k ==> l.enqueued[k] != p.preprocessEndpoint(l.enqueued[j])) &&
        exists t :: t in anchors && "href" in t && t["href"] == l.enqueued[k]
  {
    if anchors != [] {
      var init := anchors[..|anchors| - 1];
      AnchorsFollowUnvisited(p, recursive, curr, c, init);
      AnchorsAppend(p, recursive, curr, c, init);
      var m := Anchors(p, recursive, curr, c, init);
      var a := anchors[|anchors| - 1];
      var l := AnchorStep(p, recursive, curr, m, a);
      assert l == Anchors(p, recursive, curr, c, anchors);
      assert forall t :: t in init ==> t in anchors;
      if "href" in a && p.endpointFulfillsConditions(a["href"]) && Follows(recursive, m.visitedEndpoints, a["href"]) {
        var h := a["href"];
        assert l.enqueued == m.enqueued + [h];
        RecordedSnoc(p, c.enqueued, m.enqueued, h);
        forall k | |c.enqueued| <= k < |l.enqueued|
          ensures recursive && l.enqueued[k] !in c.visitedEndpoints &&
            (forall j :: |c.enqueued| <= j < k ==> l.enqueued[k] != p.preprocessEndpoint(l.enqueued[j])) &&
            exists t :: t in anchors && "href" in t && t["href"] == l.enqueued[k]
        {
          if k == |m.enqueued| {
            assert l.enqueued[k] == h;
            assert recursive && h !in m.visitedEndpoints;
            assert c.visitedEndpoints <= m.visitedEndpoints;
            forall j | |c.enqueued| <= j < k ensures h != p.preprocessEndpoint(l.enqueued[j]) {
              assert l.enqueued[j] == m.enqueued[j];
              assert p.preprocessEndpoint(m.enqueued[j]) in m.visitedEndpoints;
            }
            assert a in anchors && "href" in a && a["href"] == l.enqueued[k];
          } else {
            assert l.enqueued[k] == m.enqueued[k];
            assert forall j :: |c.enqueued| <= j < k ==> l.enqueued[j] == m.enqueued[j];
            var t :| t in init && "href" in t && t["href"] == m.enqueued[k];
            assert t in anchors;
          }
        }
      }
    }
  }

  /** The recorded forms of the hrefs followed after `base`, one href more. */
  lemma RecordedSnoc(p: Policy, base: seq<string>, hs: seq<string>, h: string)
    requires |base| <= |hs|
    ensures (set j | |base| <= j < |hs + [h]| :: p.preprocessEndpoint((hs + [h])[j]))
         == (set j | |base| <= j < |hs| :: p.preprocessEndpoint(hs[j])) + {p.preprocessEndpoint(h)}
  {
    var now := set j | |base| <= j < |hs + [h]| :: p.preprocessEndpoint((hs + [h])[j]);
    var prev := set j | |base| <= j < |hs| :: p.preprocessEndpoint(hs[j]);
    forall x ensures x in now <==> x in prev + {p.preprocessEndpoint(h)} {
      if x in prev {
        var j :| |base| <= j < |hs| && x == p.preprocessEndpoint(hs[j]);
        assert (hs + [h])[j] == hs[j];
      }
      if x == p.preprocessEndpoint(h) {
        assert (hs + [h])[|hs|] == h;
      }
      if x in now {
        var j :| |base| <= j < |hs + [h]| && x == p.preprocessEndpoint((hs + [h])[j]);
        if j < |hs| {
          assert (hs + [h])[j] == hs[j];
        }
      }
    }
  }

  /** A single-href `<a>` tag. */
  function Link(href: string): Attrs {
    map["href" := href]
  }

  /**
   * The raw href is what `visited_endpoints` is checked against, but the
   * preprocessed endpoint is what goes into it: when the site rewrites an
   * href, the same `<a>` tag twice on a page is followed twice.
   */
  lemma RewrittenLinkFollowedTwice(p: Policy, curr: string, c: Links, h: string)
    requires StartsWith(h, "/") && p.endpointFulfillsConditions(h) && h !in c.visitedEndpoints
    requires p.preprocessEndpoint(h) != h
    ensures var u := NextUrl(curr, p.preprocessEndpoint(h));
      var l := Anchors(p, true, curr, c, [Link(h), Link(h)]);
      l.enqueued == c.enqueued + [h, h] && l.queue == c.queue + [u, u]
  {
    var a := Link(h);
    assert "href" in a && a["href"] == h;
    assert [a, a][..1] == [a];
    var noTags: seq<Attrs> := [];
    assert [a][..0] == noTags;
    assert Anchors(p, true, curr, c, noTags) == c;
    var once := Anchors(p, true, curr, c, [a]);
    assert once == AnchorStep(p, true, curr, c, a);
    assert h !in once.visitedEndpoints;
  }

  /** When the site leaves the href as it is, the second copy of the tag is skipped. */
  lemma KeptLinkFollowedOnce(p: Policy, curr: string, c: Links, h: string)
    requires StartsWith(h, "/") && p.endpointFulfillsConditions(h) && h !in c.visitedEndpoints
    requires p.preprocessEndpoint(h) == h
    ensures var l := Anchors(p, true, curr, c, [Link(h), Link(h)]);
      l.enqueued == c.enqueued + [h] && l.queue == c.queue + [NextUrl(curr, h)]
  {
    var a := Link(h);
    assert "href" in a && a["href"] == h;
    assert [a, a][..1] == [a];
    var noTags: seq<Attrs> := [];
    assert [a][..0] == noTags;
    assert Anchors(p, true, curr, c, noTags) == c;
    var once := Anchors(p, true, curr, c, [a]);
    assert once == AnchorStep(p, true, curr, c, a);
    assert h in once.visitedEndpoints;
  }

  // ---------------------------------------------------------------------
  // The `<img>` loop
  // ---------------------------------------------------------------------

  /**
   * Every URL handed to `save_image_from_url` for a page is the
   * preprocessed source of one of its `<img>` tags whose source the site
   * accepted, and there is at most one per tag.
   */
  lemma {:induction false} ImageSavesFromAcceptedSources(p: Policy, imgs: seq<Attrs>)
    ensures |ImageSaves(p, imgs)| <= |imgs|
    ensures forall u :: u in ImageSaves(p, imgs) ==>
      exists t :: t in imgs && ImgSrc(t).Some? && p.imgUrlFulfillsConditions(ImgSrc(t).value) &&
        u == p.preprocessImgUrl(ImgSrc(t).value)
  {
    if imgs != [] {
      var init := imgs[..|imgs| - 1];
      var last := imgs[|imgs| - 1];
      ImageSavesFromAcceptedSources(p, init);
      assert ImageSaves(p, imgs) == ImageSaves(p, init) + TagSave(p, last);
      forall u | u in ImageSaves(p, imgs)
        ensures (exists t :: t in imgs && ImgSrc(t).Some? && p.imgUrlFulfillsConditions(ImgSrc(t).value) &&
                   u == p.preprocessImgUrl(ImgSrc(t).value))
      {
        if u in ImageSaves(p, init) {
          var t :| t in init && ImgSrc(t).Some? && p.imgUrlFulfillsConditions(ImgSrc(t).value) &&
            u == p.preprocessImgUrl(ImgSrc(t).value);
          assert t in imgs;
        } else {
          assert u in TagSave(p, last);
          assert last in imgs;
        }
      }
    }
  }

  /** None of the URLs `us` would make `save_image_from_url` raise. */
  ghost predicate NoneRaise(image: string -> Option<Bytes>, us: seq<string>) {
    forall i :: 0 <= i < |us| ==> !SaveRaises(image, us[i])
  }

  lemma NoneRaiseSnoc(image: string -> Option<Bytes>, us: seq<string>, u: string)
    requires NoneRaise(image, us) && !SaveRaises(image, u)
    ensures NoneRaise(image, us + [u])
  {
    assert forall i :: 0 <= i < |us| ==> (us + [u])[i] == us[i];
  }

  /**
   * The `<img>` loop hands the requested saves to `save_image_from_url`
   * in order and stops at the first one that raises: without a raising
   * save it hands over all of them.
   */
  lemma {:induction false} PageSavesUntilRaise(p: Policy, image: string -> Option<Bytes>, imgs: seq<Attrs>)
    ensures var sv := PageSaves(p, image, imgs); var all := ImageSaves(p, imgs);
      |sv.urls| <= |all| && sv.urls == all[..|sv.urls|]
    ensures var sv := PageSaves(p, image, imgs);
      !sv.raised ==> sv.urls == ImageSaves(p, imgs) && NoneRaise(image, sv.urls)
    ensures var sv := PageSaves(p, image, imgs);
      sv.raised ==> sv.urls != [] && SaveRaises(image, sv.urls[|sv.urls| - 1]) && NoneRaise(image, sv.urls[..|sv.urls| - 1])
  {
    if imgs == [] {
      assert ImageSaves(p, imgs)[..0] == [];
    } else {
      var init := imgs[..|imgs| - 1];
      PageSavesUntilRaise(p, image, init);
      var prev := PageSaves(p, image, init);
      var t := TagSave(p, imgs[|imgs| - 1]);
      var all := ImageSaves(p, imgs);
      assert all == ImageSaves(p, init) + t;
      if prev.raised {
        assert all[..|prev.urls|] == ImageSaves(p, init)[..|prev.urls|];
      } else {
        var sv := PageSaves(p, image, imgs);
        assert sv.urls == all == prev.urls + t;
        assert all[..|all|] == all;
        if t != [] {
          assert t == [t[0]];
          if sv.raised {
            assert sv.urls[..|sv.urls| - 1] == prev.urls;
          } else {
            NoneRaiseSnoc(image, prev.urls, t[0]);
          }
        } else {
          assert prev.urls + t == prev.urls;
        }
      }
    }
  }

  /** When nothing raises, a page's `<img>` loop runs to its end. */
  lemma NeverRaisesPageSaves(p: Policy, web: Web, imgs: seq<Attrs>)
    requires NeverRaises(web)
    ensures PageSaves(p, web.image, imgs) == Saves(ImageSaves(p, imgs), false)
  {
    PageSavesUntilRaise(p, web.image, imgs);
  }

  /** `src` wins over `data-src`; a tag with neither asks for no save. */
  lemma TagSaveSources(p: Policy, tag: Attrs)
    ensures "src" in tag && p.imgUrlFulfillsConditions(tag["src"]) ==> TagSave(p, tag) == [p.preprocessImgUrl(tag["src"])]
    ensures "src" in tag && !p.imgUrlFulfillsConditions(tag["src"]) ==> TagSave(p, tag) == []
    ensures "src" !in tag && "data-src" in tag ==>
      TagSave(p, tag) == (if p.imgUrlFulfillsConditions(tag["data-src"]) then [p.preprocessImgUrl(tag["data-src"])] else [])
    ensures "src" !in tag && "data-src" !in tag ==> TagSave(p, tag) == []
  {
  }

  // ---------------------------------------------------------------------
  // One iteration and whole runs
  // ---------------------------------------------------------------------

  /**
   * One iteration pops one URL, fetches it at most once, and only appends
   * to the traces; the queue stays first-in first-out, since what was
   * queued behind the popped URL stays at the front.
   */
  lemma StepExtends(p: Policy, recursive: bool, web: Web, c: Crawl)
    requires c.queue != []
    ensures var n := Step(p, recursive, web, c);
      n.visitedUrls == c.visitedUrls + {c.queue[0]} &&
      n.fetched == (if c.queue[0] in c.visitedUrls then c.fetched else c.fetched + [c.queue[0]]) &&
      |c.saved| <= |n.saved| && n.saved[..|c.saved|] == c.saved &&
      |c.enqueued| <= |n.enqueued| && n.enqueued[..|c.enqueued|] == c.enqueued &&
      c.visitedEndpoints <= n.visitedEndpoints &&
      |n.queue| - (|c.queue| - 1) == |n.enqueued| - |c.enqueued|
    ensures var n := Step(p, recursive, web, c);
      |c.queue| - 1 <= |n.queue| && n.queue[..|c.queue| - 1] == c.queue[1..]
  {
    var url := c.queue[0];
    if url !in c.visitedUrls {
      var r := web.page(url);
      if r.Response? && r.status == 200 {
        var l0 := Links(c.queue[1..], c.visitedEndpoints, c.enqueued);
        AnchorsAppend(p, recursive, url, l0, r.page.anchors);
        assert (c.saved + PageSaves(p, web.image, r.page.imgs).urls)[..|c.saved|] == c.saved;
        assert c.enqueued[..|c.enqueued|] == c.enqueued;
        assert c.queue[1..][..|c.queue| - 1] == c.queue[1..];
      } else {
        assert c.saved[..|c.saved|] == c.saved && c.enqueued[..|c.enqueued|] == c.enqueued;
      }
    } else {
      assert c.saved[..|c.saved|] == c.saved && c.enqueued[..|c.enqueued|] == c.enqueued;
    }
  }

  /** A fetched page that answers with a status other than 200 (or raises) adds no save and no link. */
  lemma StepSkipsFailedPages(p: Policy, recursive: bool, web: Web, c: Crawl)
    requires c.queue != [] && c.queue[0] !in c.visitedUrls
    requires web.page(c.queue[0]).Raised? || web.page(c.queue[0]).status != 200
    ensures var n := Step(p, recursive, web, c);
      n.queue == c.queue[1..] && n.saved == c.saved && n.enqueued == c.enqueued &&
      n.visitedEndpoints == c.visitedEndpoints && n.fetched == c.fetched + [c.queue[0]]
  {
  }

  /**
   * A save that raises ends the crawl in that iteration: the page's `<a>`
   * loop never runs and nothing after it is fetched.
   */
  lemma RaisingSaveEndsRun(p: Policy, recursive: bool, web: Web, c: Crawl, fuel: nat)
    requires c.queue != [] && fuel > 0 && c.queue[0] !in c.visitedUrls
    requires web.page(c.queue[0]).Response? && web.page(c.queue[0]).status == 200
    requires PageSaves(p, web.image, web.page(c.queue[0]).page.imgs).raised
    ensures var o := Run(p, recursive, web, c, fuel);
      o.status == Aborted && o.crawl.fetched == c.fetched + [c.queue[0]] &&
      o.crawl.queue == c.queue[1..] && o.crawl.enqueued == c.enqueued &&
      o.crawl.saved == c.saved + PageSaves(p, web.image, web.page(c.queue[0]).page.imgs).urls
  {
  }

  /** When the seed page's one accepted `<img>` cannot be saved, the crawl ends after that single fetch. */
  lemma SeedImageSaveRaises(s: Scraper, recursive: bool, web: Web, fuel: nat, src: string, anchors: seq<Attrs>)
    requires fuel > 0
    requires web.page(s.url) == Response(200, Page([map["src" := src]], anchors))
    requires s.policy.imgUrlFulfillsConditions(src) && SaveRaises(web.image, s.policy.preprocessImgUrl(src))
    ensures var o := Run(s.policy, recursive, web, Start(s), fuel);
      o.status == Aborted && o.crawl.fetched == [s.url] &&
      o.crawl.saved == [s.policy.preprocessImgUrl(src)] && o.crawl.enqueued == []
  {
    var t: Attrs := map["src" := src];
    var none: seq<Attrs> := [];
    assert [t][..0] == none;
    assert TagSave(s.policy, t) == [s.policy.preprocessImgUrl(src)];
    assert PageSaves(s.policy, web.image, [t]) == Saves([s.policy.preprocessImgUrl(src)], true);
    RaisingSaveEndsRun(s.policy, recursive, web, Start(s), fuel);
  }

  /** A run only appends to its traces, and fetches at most one URL per iteration. */
  lemma {:induction false} RunExtends(p: Policy, recursive: bool, web: Web, c: Crawl, fuel: nat)
    ensures var o := Run(p, recursive, web, c, fuel).crawl;
      IsPrefix(c.fetched, o.fetched) && |o.fetched| <= |c.fetched| + fuel &&
      IsPrefix(c.saved, o.saved) && IsPrefix(c.enqueued, o.enqueued) &&
      c.visitedUrls <= o.visitedUrls
    decreases fuel
  {
    if c.queue == [] || fuel == 0 {
      assert c.fetched[..|c.fetched|] == c.fetched;
      assert c.saved[..|c.saved|] == c.saved && c.enqueued[..|c.enqueued|] == c.enqueued;
    } else {
      var n := Step(p, recursive, web, c);
      StepExtends(p, recursive, web, c);
      assert n.fetched[..|c.fetched|] == c.fetched;
      if !Raises(p, web, c) {
        RunExtends(p, recursive, web, n, fuel - 1);
        var o := Run(p, recursive, web, n, fuel - 1).crawl;
        PrefixTrans(c.fetched, n.fetched, o.fetched);
        PrefixTrans(c.saved, n.saved, o.saved);
        PrefixTrans(c.enqueued, n.enqueued, o.enqueued);
      }
    }
  }

  /** With at least one iteration, the seed URL is the first page fetched. */
  lemma ScrapeFetchesSeedFirst(s: Scraper, recursive: bool, web: Web, fuel: nat)
    requires fuel > 0
    ensures var o := Run(s.policy, recursive, web, Start(s), fuel).crawl;
      o.fetched != [] && o.fetched[0] == s.url
  {
    var c := Start(s);
    var n := Step(s.policy, recursive, web, c);
    StepExtends(s.policy, recursive, web, c);
    assert n.fetched == [s.url];
    if !Raises(s.policy, web, c) {
      RunExtends(s.policy, recursive, web, n, fuel - 1);
      var o := Run(s.policy, recursive, web, n, fuel - 1).crawl;
      assert o.fetched[..1] == [s.url];
    }
  }

  /** The fetch trace has no repetition and holds exactly the visited URLs. */
  ghost predicate FetchInv(c: Crawl) {
    Distinct(c.fetched) && forall u :: u in c.fetched <==> u in c.visitedUrls
  }

  lemma StepKeepsFetchInv(p: Policy, recursive: bool, web: Web, c: Crawl)
    requires c.queue != [] && FetchInv(c)
    ensures FetchInv(Step(p, recursive, web, c))
  {
    StepExtends(p, recursive, web, c);
    var n := Step(p, recursive, web, c);
    var url := c.queue[0];
    if url !in c.visitedUrls {
      forall i, j | 0 <= i < j < |n.fetched| ensures n.fetched[i] != n.fetched[j] {
        if j == |c.fetched| {
          assert n.fetched[i] == c.fetched[i];
          assert n.fetched[i] in c.fetched;
        } else {
          assert n.fetched[i] == c.fetched[i] && n.fetched[j] == c.fetched[j];
        }
      }
    } else {
      assert n.visitedUrls == c.visitedUrls;
    }
  }

  lemma {:induction false} RunKeepsFetchInv(p: Policy, recursive: bool, web: Web, c: Crawl, fuel: nat)
    requires FetchInv(c)
    ensures FetchInv(Run(p, recursive, web, c, fuel).crawl)
    decreases fuel
  {
    if c.queue != [] && fuel != 0 {
      StepKeepsFetchInv(p, recursive, web, c);
      if !Raises(p, web, c) {
        RunKeepsFetchInv(p, recursive, web, Step(p, recursive, web, c), fuel - 1);
      }
    }
  }

  /**
   * `visited_urls` makes every URL of the frontier be requested at most
   * once, however often it is queued: the trace of a whole crawl has no
   * repetition, and it holds exactly the URLs marked visited.
   */
  lemma ScrapeFetchesEachUrlOnce(s: Scraper, recursive: bool, web: Web, fuel: nat)
    ensures var o := Run(s.policy, recursive, web, Start(s), fuel).crawl;
      Distinct(o.fetched) && forall u :: u in o.fetched <==> u in o.visitedUrls
  {
    RunKeepsFetchInv(s.policy, recursive, web, Start(s), fuel);
  }

  /**
   * The seed join of an endpoint that starts with `/` always holds a
   * doubled slash: `url + '/' + ep` adds one, and a seed ending in `/`
   * keeps its own.
   */
  lemma SeedJoinDoublesSlash(url: string, ep: string)
    requires StartsWith(ep, "/")
    ensures exists j :: OccursAt(SeedJoin(url, ep), "/" + ep, j)
  {
    if EndsWith(url, "/") {
      var u := url[..|url| - 1];
      assert url == u + "/";
      assert SeedJoin(url, ep) == u + ("/" + ep);
      assert SeedJoin(url, ep)[|u|..|u| + 1 + |ep|] == "/" + ep;
      assert OccursAt(SeedJoin(url, ep), "/" + ep, |u|);
    } else {
      assert SeedJoin(url, ep) == url + ("/" + ep);
      assert SeedJoin(url, ep)[|url|..|url| + 1 + |ep|] == "/" + ep;
      assert OccursAt(SeedJoin(url, ep), "/" + ep, |url|);
    }
  }

  // ---------------------------------------------------------------------
  // The non-recursive crawl
  // ---------------------------------------------------------------------

  /** When nothing raises, no iteration does. */
  lemma NeverRaisesStep(p: Policy, web: Web, c: Crawl)
    requires NeverRaises(web) && c.queue != []
    ensures !Raises(p, web, c)
  {
    var r := web.page(c.queue[0]);
    assert r.Response?;
    NeverRaisesPageSaves(p, web, r.page.imgs);
  }

  /** The URLs of `q` that are not in `visited`, first occurrences only, in order. */
  function Fresh(q: seq<string>, visited: set<string>): seq<string>
    decreases |q|
  {
    if q == [] then []
    else if q[0] in visited then Fresh(q[1..], visited)
    else [q[0]] + Fresh(q[1..], visited + {q[0]})
  }

  /** `Fresh` lists every unvisited URL of the queue exactly once. */
  lemma {:induction false} FreshMeaning(q: seq<string>, visited: set<string>)
    ensures forall u :: u in Fresh(q, visited) <==> u in q && u !in visited
    ensures Distinct(Fresh(q, visited))
    decreases |q|
  {
    if q != [] {
      var v := if q[0] in visited then visited else visited + {q[0]};
      FreshMeaning(q[1..], v);
      assert forall u :: u in q <==> u == q[0] || u in q[1..];
      if q[0] !in visited {
        var f := Fresh(q, visited);
        var rest := Fresh(q[1..], v);
        assert f == [q[0]] + rest;
        forall i, j | 0 <= i < j < |f| ensures f[i] != f[j] {
          if i == 0 {
            assert f[j] == rest[j - 1];
            assert f[j] in rest;
          } else {
            assert f[i] == rest[i - 1] && f[j] == rest[j - 1];
          }
        }
      }
    }
  }

  /** `Fresh` never lists more URLs than the queue holds. */
  lemma {:induction false} FreshLength(q: seq<string>, visited: set<string>)
    ensures |Fresh(q, visited)| <= |q|
    decreases |q|
  {
    if q != [] {
      FreshLength(q[1..], if q[0] in visited then visited else visited + {q[0]});
    }
  }

  /**
   * Without recursion one iteration, whatever the site answers, only pops
   * its URL and fetches it when new: the URLs fetched so far followed by
   * the fresh URLs still queued stay the same.
   */
  lemma NonRecursiveStep(p: Policy, web: Web, c: Crawl)
    requires c.queue != []
    ensures NeverRaises(web) ==> !Raises(p, web, c)
    ensures var n := Step(p, false, web, c);
      n.queue == c.queue[1..] && n.enqueued == c.enqueued && n.visitedUrls == c.visitedUrls + {c.queue[0]} &&
      n.fetched == (if c.queue[0] in c.visitedUrls then c.fetched else c.fetched + [c.queue[0]])
    ensures var n := Step(p, false, web, c);
      n.fetched + Fresh(n.queue, n.visitedUrls) == c.fetched + Fresh(c.queue, c.visitedUrls)
  {
    var url := c.queue[0];
    if NeverRaises(web) {
      NeverRaisesStep(p, web, c);
    }
    if url !in c.visitedUrls && web.page(url).Response? && web.page(url).status == 200 {
      AnchorsNonRecursive(p, url, Links(c.queue[1..], c.visitedEndpoints, c.enqueued), web.page(url).page.anchors);
    }
    var n := Step(p, false, web, c);
    if url in c.visitedUrls {
      assert n.visitedUrls == c.visitedUrls;
    } else {
      assert Fresh(c.queue, c.visitedUrls) == [url] + Fresh(c.queue[1..], c.visitedUrls + {url});
    }
  }

  /**
   * Without recursion the frontier only shrinks. On every site the run
   * follows no link, fetches a prefix of the queue's unvisited URLs in
   * queue order, and is no longer out of fuel once the budget covers the
   * queue (it finishes, or a raising request aborts it). When no request
   * raises, it finishes exactly when the budget covers the queue, having
   * fetched all of those URLs.
   */
  lemma {:induction false} RunNonRecursive(p: Policy, web: Web, c: Crawl, fuel: nat)
    ensures var o := Run(p, false, web, c, fuel);
      o.crawl.enqueued == c.enqueued && IsPrefix(o.crawl.fetched, c.fetched + Fresh(c.queue, c.visitedUrls)) &&
      (fuel >= |c.queue| ==> o.status != OutOfFuel)
    ensures NeverRaises(web) ==> var o := Run(p, false, web, c, fuel);
      (o.status == Finished <==> fuel >= |c.queue|) && o.status != Aborted &&
      (fuel >= |c.queue| ==> o.crawl.fetched == c.fetched + Fresh(c.queue, c.visitedUrls))
    decreases fuel
  {
    var all := c.fetched + Fresh(c.queue, c.visitedUrls);
    if c.queue == [] {
      assert all == c.fetched && all[..|c.fetched|] == c.fetched;
    } else if fuel == 0 {
      assert all[..|c.fetched|] == c.fetched;
    } else {
      NonRecursiveStep(p, web, c);
      var n := Step(p, false, web, c);
      if Raises(p, web, c) {
        assert all[..|n.fetched|] == n.fetched;
      } else {
        RunNonRecursive(p, web, n, fuel - 1);
      }
    }
  }

  /**
   * `scrape_images(dest, recursive=False)` requests the seed and then each
   * joined endpoint, skipping repeats, and never follows a link. On every
   * site it fetches at most `1 + len(endpoints)` pages, and that many
   * iterations end it. When no request raises it stops after exactly one
   * iteration per queued URL, having fetched them all.
   */
  lemma ScrapeNonRecursive(s: Scraper, web: Web, fuel: nat)
    ensures var o := Run(s.policy, false, web, Start(s), fuel);
      o.crawl.enqueued == [] && IsPrefix(o.crawl.fetched, Fresh(InitialQueue(s.url, s.endpoints), {})) &&
      |o.crawl.fetched| <= 1 + |s.endpoints| &&
      (fuel >= 1 + |s.endpoints| ==> o.status != OutOfFuel)
    ensures NeverRaises(web) ==> var o := Run(s.policy, false, web, Start(s), fuel);
      (o.status == Finished <==> fuel >= 1 + |s.endpoints|) &&
      (o.status == Finished ==> o.crawl.fetched == Fresh(InitialQueue(s.url, s.endpoints), {}))
  {
    RunNonRecursive(s.policy, web, Start(s), fuel);
    FreshLength(InitialQueue(s.url, s.endpoints), {});
    assert [] + Fresh(InitialQueue(s.url, s.endpoints), {}) == Fresh(InitialQueue(s.url, s.endpoints), {});
  }

  // ---------------------------------------------------------------------
  // Links followed at most once, and termination, when endpoints are kept
  // ---------------------------------------------------------------------

  /** Every followed href has been recorded, and none was followed twice. */
  predicate LinkInv(c: Links) {
    Distinct(c.enqueued) && forall h :: h in c.enqueued ==> h in c.visitedEndpoints
  }

  lemma {:induction false} AnchorsKeepLinkInv(p: Policy, recursive: bool, curr: string, c: Links, anchors: seq<Attrs>)
    requires KeepsEndpoints(p) && LinkInv(c)
    ensures LinkInv(Anchors(p, recursive, curr, c, anchors))
  {
    if anchors != [] {
      var m := Anchors(p, recursive, curr, c, anchors[..|anchors| - 1]);
      AnchorsKeepLinkInv(p, recursive, curr, c, anchors[..|anchors| - 1]);
      var a := anchors[|anchors| - 1];
      var l := AnchorStep(p, recursive, curr, m, a);
      if "href" in a && p.endpointFulfillsConditions(a["href"]) && Follows(recursive, m.visitedEndpoints, a["href"]) {
        var h := a["href"];
        assert p.preprocessEndpoint(h) == h;
        assert l.enqueued == m.enqueued + [h] && h !in m.enqueued;
        forall i, j | 0 <= i < j < |l.enqueued| ensures l.enqueued[i] != l.enqueued[j] {
          assert l.enqueued[i] == m.enqueued[i];
          if j == |m.enqueued| {
            assert l.enqueued[i] in m.enqueued;
          } else {
            assert l.enqueued[j] == m.enqueued[j];
          }
        }
      }
    }
  }

  predicate CrawlLinkInv(c: Crawl) {
    LinkInv(Links(c.queue, c.visitedEndpoints, c.enqueued))
  }

  lemma {:induction false} RunKeepsLinkInv(p: Policy, recursive: bool, web: Web, c: Crawl, fuel: nat)
    requires KeepsEndpoints(p) && CrawlLinkInv(c)
    ensures CrawlLinkInv(Run(p, recursive, web, c, fuel).crawl)
    decreases fuel
  {
    if c.queue != [] && fuel != 0 {
      var url := c.queue[0];
      if url !in c.visitedUrls && web.page(url).Response? && web.page(url).status == 200 {
        AnchorsKeepLinkInv(p, recursive, url, Links(c.queue[1..], c.visitedEndpoints, c.enqueued), web.page(url).page.anchors);
      }
      if !Raises(p, web, c) {
        RunKeepsLinkInv(p, recursive, web, Step(p, recursive, web, c), fuel - 1);
      }
    }
  }

  /** When the site keeps endpoints as they are, a crawl follows every href at most once. */
  lemma ScrapeFollowsEachLinkOnce(s: Scraper, recursive: bool, web: Web, fuel: nat)
    requires KeepsEndpoints(s.policy)
    ensures Distinct(Run(s.policy, recursive, web, Start(s), fuel).crawl.enqueued)
  {
    RunKeepsLinkInv(s.policy, recursive, web, Start(s), fuel);
  }

  /** Every href of every page lies in `hrefs`. */
  ghost predicate HrefsWithin(web: Web, hrefs: set<string>) {
    forall u, a :: web.page(u).Response? && a in web.page(u).page.anchors && "href" in a ==> a["href"] in hrefs
  }

  /** What is left to do: the frontier plus the hrefs that may still be followed. */
  function Pending(queue: seq<string>, visitedEndpoints: set<string>, hrefs: set<string>): nat {
    |queue| + |hrefs - visitedEndpoints|
  }

  /** Following a link trades one possible href for one queued URL. */
  lemma {:induction false} AnchorsKeepPending(p: Policy, recursive: bool, curr: string, c: Links, anchors: seq<Attrs>, hrefs: set<string>)
    requires KeepsEndpoints(p)
    requires forall a :: a in anchors && "href" in a ==> a["href"] in hrefs
    ensures var l := Anchors(p, recursive, curr, c, anchors);
      Pending(l.queue, l.visitedEndpoints, hrefs) == Pending(c.queue, c.visitedEndpoints, hrefs)
  {
    if anchors != [] {
      var init := anchors[..|anchors| - 1];
      assert forall a :: a in init ==> a in anchors;
      AnchorsKeepPending(p, recursive, curr, c, init, hrefs);
      var m := Anchors(p, recursive, curr, c, init);
      var a := anchors[|anchors| - 1];
      if "href" in a && p.endpointFulfillsConditions(a["href"]) && Follows(recursive, m.visitedEndpoints, a["href"]) {
        var h := a["href"];
        assert h in hrefs - m.visitedEndpoints;
        assert hrefs - (m.visitedEndpoints + {p.preprocessEndpoint(h)}) == (hrefs - m.visitedEndpoints) - {h};
      }
    }
  }

  /** Each iteration that does not raise lowers `Pending` by exactly one. */
  lemma StepLowersPending(p: Policy, recursive: bool, web: Web, c: Crawl, hrefs: set<string>)
    requires c.queue != [] && KeepsEndpoints(p) && HrefsWithin(web, hrefs)
    ensures var n := Step(p, recursive, web, c);
      Pending(n.queue, n.visitedEndpoints, hrefs) + 1 == Pending(c.queue, c.visitedEndpoints, hrefs)
  {
    var url := c.queue[0];
    if url !in c.visitedUrls && web.page(url).Response? && web.page(url).status == 200 {
      var page := web.page(url).page;
      AnchorsKeepPending(p, recursive, url, Links(c.queue[1..], c.visitedEndpoints, c.enqueued), page.anchors, hrefs);
    }
  }

  /**
   * When the site keeps its endpoints and its hrefs come from `hrefs`, a
   * budget covering the remaining work ends the run: it finishes, or a
   * raising request aborts it, and it finishes when nothing raises.
   */
  lemma {:induction false} RunTerminates(p: Policy, recursive: bool, web: Web, c: Crawl, fuel: nat, hrefs: set<string>)
    requires KeepsEndpoints(p) && HrefsWithin(web, hrefs)
    requires fuel >= Pending(c.queue, c.visitedEndpoints, hrefs)
    ensures Run(p, recursive, web, c, fuel).status != OutOfFuel
    ensures NeverRaises(web) ==> Run(p, recursive, web, c, fuel).status == Finished
    decreases fuel
  {
    if c.queue != [] {
      StepLowersPending(p, recursive, web, c, hrefs);
      if NeverRaises(web) {
        NeverRaisesStep(p, web, c);
      }
      if !Raises(p, web, c) {
        RunTerminates(p, recursive, web, Step(p, recursive, web, c), fuel - 1, hrefs);
      }
    }
  }

  /**
   * A recursive crawl of a site that keeps its endpoints, over pages whose
   * hrefs come from a finite set, ends on its own: one iteration per seed
   * URL plus one per possible href is always enough for it to finish, or
   * to be aborted by a raising request, and it finishes when nothing
   * raises.
   */
  lemma ScrapeTerminates(s: Scraper, recursive: bool, web: Web, hrefs: set<string>, fuel: nat)
    requires KeepsEndpoints(s.policy) && HrefsWithin(web, hrefs)
    requires fuel >= 1 + |s.endpoints| + |hrefs|
    ensures Run(s.policy, recursive, web, Start(s), fuel).status != OutOfFuel
    ensures NeverRaises(web) ==> Run(s.policy, recursive, web, Start(s), fuel).status == Finished
  {
    assert hrefs - {} == hrefs;
    RunTerminates(s.policy, recursive, web, Start(s), fuel, hrefs);
  }
}
