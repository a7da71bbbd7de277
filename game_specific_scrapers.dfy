/**
 * The four site scrapers of scraper/game_specific_scrapers.py: each one's
 * hooks as a `Policy`, and each one's `get_endpoints`, with what the
 * engine's guarantees become for that site.
 */
module GameScrapers {
  import opened Wrappers
  import opened Strings
  import opened ImageProcess
  import opened BaseScraper
  import opened CrawlProperties

  // ---------------------------------------------------------------------
  // Dota 2
  // ---------------------------------------------------------------------

  /** Dota 2 accepts every image and every link and rewrites neither. */
  const Dota2Policy: Policy := Policy(u => true, u => u, u => true, u => u)

  /** The query that follows the seed URL in each hero-data request. */
  const HERO_QUERY: string := "/datafeed/herodata" + "?language=english" + "&hero_id="

  /** The CDN folder every ability icon comes from. */
  const ABILITY_CDN: string := "https://cdn.cloudflare.steamstatic.com" + "/apps/dota2/images" + "/dota_react/abilities/"

  /** The decimal digit for `d`. */
  function Digit(d: nat): char
    requires d < 10
  {
    ('0' as int + d) as char
  }

  /** Python's `str(n)` of a natural number: its decimal digits, without leading zeros. */
  function NatToString(n: nat): (s: string)
    ensures |s| >= 1
    ensures forall k :: 0 <= k < |s| ==> '0' <= s[k] <= '9'
    ensures s[0] == '0' <==> n == 0
  {
    if n < 10 then [Digit(n)] else NatToString(n / 10) + [Digit(n % 10)]
  }

  /** The number a string of decimal digits denotes (Python's `int(s)`). */
  function ParseNat(s: string): nat {
    if s == [] then 0
    else
      var c := s[|s| - 1];
      10 * ParseNat(s[..|s| - 1]) + (if '0' <= c <= '9' then c as int - '0' as int else 0)
  }

  /** Reading a printed number back gives the number. */
  lemma {:induction false} ParseNatToString(n: nat)
    ensures ParseNat(NatToString(n)) == n
  {
    if n >= 10 {
      ParseNatToString(n / 10);
      var a := NatToString(n / 10);
      assert (a + [Digit(n % 10)])[..|a|] == a;
    }
  }

  /** The hero-data requests, for the hero ids 1 to 137 in order. */
  function HeroUrls(url: string): seq<string> {
    seq(137, i requires 0 <= i < 137 => url + HERO_QUERY + NatToString(i + 1))
  }

  /**
   * There are 137 hero-data URLs, the `i`-th asks for hero id `i + 1`, and
   * no two of them are equal.
   */
  lemma HeroUrlIds(url: string)
    ensures |HeroUrls(url)| == 137
    ensures forall i :: 0 <= i < 137 ==>
      StartsWith(HeroUrls(url)[i], url + HERO_QUERY) && ParseNat(HeroUrls(url)[i][|url + HERO_QUERY|..]) == i + 1
    ensures Distinct(HeroUrls(url))
  {
    var q := url + HERO_QUERY;
    var r := HeroUrls(url);
    forall i | 0 <= i < 137
      ensures StartsWith(r[i], q) && ParseNat(r[i][|q|..]) == i + 1
    {
      var u := q + NatToString(i + 1);
      assert r[i] == u;
      assert u[..|q|] == q && u[|q|..] == NatToString(i + 1);
      ParseNatToString(i + 1);
    }
  }

  /**
   * One entry of `json_data['result']['data']['heroes']`: its ability
   * names, or `Malformed` when `hero['abilities']` or some
   * `ability['name']` is missing, which raises `KeyError`.
   */
  datatype Hero = Malformed | Hero(abilityNames: seq<string>)

  /** One hero-data answer: `MissingHeroes` when `json_data['result']['data']['heroes']` raises `KeyError`. */
  datatype HeroData = MissingHeroes | HeroData(heroes: seq<Hero>)

  /** The icon URL of an ability: the CDN folder, the name, `.png`. */
  function AbilityUrl(name: string): string {
    ABILITY_CDN + name + ".png"
  }

  /** The endpoints one hero contributes: each ability URL the hooks accept, preprocessed, in order. */
  function NameEndpoints(names: seq<string>): seq<string> {
    if names == [] then []
    else
      var u := AbilityUrl(names[|names| - 1]);
      NameEndpoints(names[..|names| - 1]) +
        (if Dota2Policy.imgUrlFulfillsConditions(u) then [Dota2Policy.preprocessImgUrl(u)] else [])
  }

  /** The index of the first malformed hero, where `KeyError` leaves the loop over heroes; `|heroes|` when there is none. */
  function FirstMalformed(heroes: seq<Hero>): (k: nat)
    ensures k <= |heroes|
  {
    if heroes == [] || heroes[0].Malformed? then 0 else 1 + FirstMalformed(heroes[1..])
  }

  /** Every hero before `FirstMalformed` is well formed, and the one at it is not. */
  lemma {:induction false} FirstMalformedMeaning(heroes: seq<Hero>)
    ensures forall j :: 0 <= j < FirstMalformed(heroes) ==> heroes[j].Hero?
    ensures FirstMalformed(heroes) < |heroes| ==> heroes[FirstMalformed(heroes)].Malformed?
  {
    if heroes != [] && heroes[0].Hero? {
      FirstMalformedMeaning(heroes[1..]);
      forall j | 1 <= j < FirstMalformed(heroes)
        ensures heroes[j].Hero?
      {
        assert heroes[j] == heroes[1..][j - 1];
      }
    }
  }

  /** The endpoints of a run of heroes, each malformed one contributing nothing. */
  function WellFormedEndpoints(heroes: seq<Hero>): seq<string> {
    if heroes == [] then []
    else
      var h := heroes[|heroes| - 1];
      WellFormedEndpoints(heroes[..|heroes| - 1]) + (if h.Hero? then NameEndpoints(h.abilityNames) else [])
  }

  /** The endpoints of one hero-data answer: those of the heroes before the first malformed one. */
  function FeedEndpoints(d: HeroData): seq<string> {
    if d.MissingHeroes? then [] else WellFormedEndpoints(d.heroes[..FirstMalformed(d.heroes)])
  }

  /** The endpoints gathered from the answers to the hero-data requests, in request order. */
  function Dota2Endpoints(feed: string -> HeroData, heroUrls: seq<string>): seq<string> {
    if heroUrls == [] then []
    else Dota2Endpoints(feed, heroUrls[..|heroUrls| - 1]) + FeedEndpoints(feed(heroUrls[|heroUrls| - 1]))
  }

  /**
   * `Dota2Scraper.get_endpoints`. `feed(u)` is the parsed JSON answer to
   * `requests.get(u)`; a `KeyError` ends the current answer's hero loop
   * and the next request follows.
   */
  method Dota2GetEndpoints(url: string, feed: string -> HeroData) returns (endpoints: seq<string>)
    ensures endpoints == Dota2Endpoints(feed, HeroUrls(url))
  {
    endpoints := [];
    var heroUrls := HeroUrls(url);
    for i := 0 to |heroUrls|
      invariant endpoints == Dota2Endpoints(feed, heroUrls[..i])
    {
      assert heroUrls[..i + 1][..i] == heroUrls[..i];
      var data := feed(heroUrls[i]);
      if data.HeroData? {
        endpoints := AppendHeroes(endpoints, data.heroes);
      }
    }
    assert heroUrls[..|heroUrls|] == heroUrls;
  }

  /** The loop over the heroes of one answer, appending to `endpoints` until a `KeyError`. */
  method AppendHeroes(endpoints0: seq<string>, heroes: seq<Hero>) returns (endpoints: seq<string>)
    ensures endpoints == endpoints0 + FeedEndpoints(HeroData(heroes))
  {
    FirstMalformedMeaning(heroes);
    endpoints := endpoints0;
    var j := 0;
    while j < |heroes|
      invariant j <= FirstMalformed(heroes)
      invariant endpoints == endpoints0 + WellFormedEndpoints(heroes[..j])
      decreases |heroes| - j
    {
      if heroes[j].Malformed? {
        break;
      }
      assert heroes[..j + 1][..j] == heroes[..j];
      endpoints := AppendAbilities(endpoints, heroes[j].abilityNames);
      j := j + 1;
    }
    assert j == FirstMalformed(heroes);
  }

  /** The loop over one hero's ability names, appending each accepted icon URL. */
  method AppendAbilities(endpoints0: seq<string>, abilityNames: seq<string>) returns (endpoints: seq<string>)
    ensures endpoints == endpoints0 + NameEndpoints(abilityNames)
  {
    endpoints := endpoints0;
    for k := 0 to |abilityNames|
      invariant endpoints == endpoints0 + NameEndpoints(abilityNames[..k])
    {
      assert abilityNames[..k + 1][..k] == abilityNames[..k];
      var abilityUrl := ABILITY_CDN + abilityNames[k] + ".png";
      if Dota2Policy.imgUrlFulfillsConditions(abilityUrl) {
        abilityUrl := Dota2Policy.preprocessImgUrl(abilityUrl);
        endpoints := endpoints + [abilityUrl];
      }
    }
    assert abilityNames[..|abilityNames|] == abilityNames;
  }

  /** Every ability of a hero becomes exactly one endpoint, its icon URL, in order. */
  lemma {:induction false} NameEndpointsAreAbilityUrls(names: seq<string>)
    ensures |NameEndpoints(names)| == |names|
    ensures forall i :: 0 <= i < |names| ==> NameEndpoints(names)[i] == AbilityUrl(names[i])
  {
    if names != [] {
      var init := names[..|names| - 1];
      NameEndpointsAreAbilityUrls(init);
      forall i | 0 <= i < |names| - 1
        ensures NameEndpoints(names)[i] == AbilityUrl(names[i])
      {
        assert names[i] == init[i];
      }
    }
  }

  /** Different ability names give different icon URLs. */
  lemma AbilityUrlInjective(a: string, b: string)
    requires AbilityUrl(a) == AbilityUrl(b)
    ensures a == b
  {
    var n := |ABILITY_CDN|;
    assert AbilityUrl(a)[n..n + |a|] == a;
    assert AbilityUrl(b)[n..n + |b|] == b;
  }

  /** `e` is the icon URL of some ability. */
  ghost predicate IsAbilityUrl(e: string) {
    exists name :: e == AbilityUrl(name)
  }

  lemma {:induction false} WellFormedEndpointsAreAbilityUrls(heroes: seq<Hero>)
    ensures forall e :: e in WellFormedEndpoints(heroes) ==> IsAbilityUrl(e)
  {
    if heroes != [] {
      WellFormedEndpointsAreAbilityUrls(heroes[..|heroes| - 1]);
      var h := heroes[|heroes| - 1];
      if h.Hero? {
        NameEndpointsAreAbilityUrls(h.abilityNames);
        forall e | e in NameEndpoints(h.abilityNames)
          ensures IsAbilityUrl(e)
        {
          var i :| 0 <= i < |h.abilityNames| && NameEndpoints(h.abilityNames)[i] == e;
          assert e == AbilityUrl(h.abilityNames[i]);
        }
      }
    }
  }

  /** Every Dota 2 endpoint is the CDN icon URL of some ability. */
  lemma {:induction false} Dota2EndpointsAreAbilityUrls(feed: string -> HeroData, heroUrls: seq<string>)
    ensures forall e :: e in Dota2Endpoints(feed, heroUrls) ==> IsAbilityUrl(e)
  {
    if heroUrls != [] {
      Dota2EndpointsAreAbilityUrls(feed, heroUrls[..|heroUrls| - 1]);
      var d := feed(heroUrls[|heroUrls| - 1]);
      if d.HeroData? {
        WellFormedEndpointsAreAbilityUrls(d.heroes[..FirstMalformed(d.heroes)]);
      }
    }
  }

  /**
   * A `KeyError` on a hero drops that hero and every hero after it in the
   * same answer, and nothing before it.
   */
  lemma MalformedHeroEndsAnswer(heroes: seq<Hero>, rest: seq<Hero>)
    requires forall j :: 0 <= j < |heroes| ==> heroes[j].Hero?
    ensures FeedEndpoints(HeroData(heroes + [Malformed] + rest)) == WellFormedEndpoints(heroes)
  {
    var all := heroes + [Malformed] + rest;
    var k := FirstMalformed(all);
    FirstMalformedMeaning(all);
    assert all[|heroes|].Malformed?;
    assert forall j :: 0 <= j < |heroes| ==> all[j] == heroes[j];
    assert k == |heroes|;
    assert all[..k] == heroes;
  }

  // ---------------------------------------------------------------------
  // Heroes of the Storm
  // ---------------------------------------------------------------------

  /** `img_url_fulfills_conditions`: the URL mentions `abilities`. */
  function HotsImgOk(u: string): (r: bool)
    ensures r <==> exists i :: OccursAt(u, "abilities", i)
  {
    Contains(u, "abilities")
  }

  /** `preprocess_img_url`: hexagon icons are swapped for square ones. */
  function HotsPrepImg(u: string): string {
    Replace(u, "hexagon", "square")
  }

  /** `endpoint_fulfills_conditions` returns the URL itself, which Python reads as true exactly when it is not empty. */
  function HotsLinkOk(u: string): bool {
    u != []
  }

  const HotsPolicy: Policy := Policy(HotsImgOk, HotsPrepImg, HotsLinkOk, u => u)

  /** An ability icon URL with no `.` anywhere and a trailing `/`. */
  const DIR_ICON: string := "https://cdn/abilities/"

  /** The file name derived from `DIR_ICON` is empty. */
  lemma DirIconName()
    ensures ImgNameFromUrl(DIR_ICON) == "" && IsDirName(ImgNameFromUrl(DIR_ICON))
  {
    var a := "https://cdn/abilities";
    assert DIR_ICON == a + "/" + "";
    ImgNameOfDirectoryEntry(a, "");
  }

  /** HoTS accepts `DIR_ICON` and keeps it as it is. */
  lemma DirIconAccepted()
    ensures HotsPolicy.imgUrlFulfillsConditions(DIR_ICON) && HotsPolicy.preprocessImgUrl(DIR_ICON) == DIR_ICON
  {
    assert DIR_ICON[12..21] == "abilities";
    assert OccursAt(DIR_ICON, "abilities", 12);
    NotContainsWhenCharAbsent(DIR_ICON, "hexagon", 2);
    HotsPrepImgKeepsOthers(DIR_ICON);
  }

  /**
   * A HoTS page whose ability icon URL is `DIR_ICON`
   * (`https://cdn/abilities/`) ends the crawl: the derived file name is
   * empty, and opening the folder itself for writing raises.
   */
  lemma HotsDirectoryIconEndsCrawl(url: string, scrapeDirectly: bool, overwrite: bool, endpoints: seq<string>,
                                   recursive: bool, web: Web, fuel: nat, anchors: seq<Attrs>)
    requires fuel > 0
    requires web.page(url) == Response(200, Page([map["src" := DIR_ICON]], anchors))
    requires web.image(DIR_ICON).Some?
    ensures var s := Scraper(url, scrapeDirectly, overwrite, HotsPolicy, endpoints);
      var o := Run(HotsPolicy, recursive, web, Start(s), fuel);
      o.status == Aborted && o.crawl.fetched == [url] && o.crawl.enqueued == []
  {
    DirIconName();
    DirIconAccepted();
    SeedImageSaveRaises(Scraper(url, scrapeDirectly, overwrite, HotsPolicy, endpoints), recursive, web, fuel, DIR_ICON, anchors);
  }

  /** A URL without `hexagon` is downloaded as it is. */
  lemma HotsPrepImgKeepsOthers(u: string)
    requires !Contains(u, "hexagon")
    ensures HotsPolicy.preprocessImgUrl(u) == u
  {
    ReplaceAbsent(u, "hexagon", "square");
  }

  /**
   * The leftmost `hexagon`, wherever it is, becomes `square`, and the rest
   * of the URL is rewritten in the same way.
   */
  lemma HotsPrepImgSwapsHexagon(a: string, b: string)
    requires forall i :: 0 <= i < |a| ==> !OccursAt(a + "hexagon" + b, "hexagon", i)
    ensures HotsPolicy.preprocessImgUrl(a + "hexagon" + b) == a + "square" + HotsPolicy.preprocessImgUrl(b)
  {
    ReplaceFirst(a, "hexagon", b, "square");
  }

  /** No `hexagon` is left in a preprocessed URL: every one became `square`, and `square` cannot start a new one. */
  lemma HotsPrepImgLeavesNoHexagon(u: string)
    ensures !Contains(HotsPolicy.preprocessImgUrl(u), "hexagon")
  {
    assert "hexagon"[1..] == "exagon";
    ReplaceLeavesNone(u, "hexagon", "square");
  }

  /** The hero page path of a hero name. */
  const HEROES_PATH: string := "/en-us/heroes/"

  function HeroPath(name: string): string {
    HEROES_PATH + name + "/"
  }

  /** The endpoints of the heroes file: one hero path per line that is not blank, in file order. */
  function HotsEndpoints(lines: seq<string>): seq<string> {
    if lines == [] then []
    else
      var lineClean := Strip(lines[|lines| - 1]);
      HotsEndpoints(lines[..|lines| - 1]) + (if lineClean != "" then [HeroPath(lineClean)] else [])
  }

  /** `HeroesOfTheStormScraper.get_endpoints`, with the lines `f.readlines()` returns. */
  method HotsGetEndpoints(lines: seq<string>) returns (endpoints: seq<string>)
    ensures endpoints == HotsEndpoints(lines)
  {
    endpoints := [];
    for i := 0 to |lines|
      invariant endpoints == HotsEndpoints(lines[..i])
    {
      assert lines[..i + 1][..i] == lines[..i];
      var lineClean := Strip(lines[i]);
      if lineClean != "" {
        var endpoint := HEROES_PATH + lineClean + "/";
        endpoints := endpoints + [endpoint];
      }
    }
    assert lines[..|lines|] == lines;
  }

  /** The endpoints of two parts of the file are those of the first part followed by those of the second. */
  lemma {:induction false} HotsEndpointsAppend(a: seq<string>, b: seq<string>)
    ensures HotsEndpoints(a + b) == HotsEndpoints(a) + HotsEndpoints(b)
  {
    if b != [] {
      var b0 := b[..|b| - 1];
      HotsEndpointsAppend(a, b0);
      assert (a + b)[..|a + b| - 1] == a + b0;
      assert (a + b)[|a + b| - 1] == b[|b| - 1];
    } else {
      assert a + b == a;
    }
  }

  /**
   * Every endpoint is the hero path of the stripped text of a non-blank
   * line, every non-blank line gives one, and blank lines give none.
   */
  lemma {:induction false} HotsEndpointsMeaning(lines: seq<string>)
    ensures |HotsEndpoints(lines)| <= |lines|
    ensures forall e :: e in HotsEndpoints(lines) ==> exists l :: l in lines && Strip(l) != "" && e == HeroPath(Strip(l))
    ensures forall l :: l in lines && Strip(l) != "" ==> HeroPath(Strip(l)) in HotsEndpoints(lines)
  {
    if lines != [] {
      var init := lines[..|lines| - 1];
      var last := lines[|lines| - 1];
      HotsEndpointsMeaning(init);
      assert forall l :: l in lines <==> l in init || l == last;
    }
  }

  /**
   * Every hero endpoint starts with `/en-us/heroes/`, so the seed join,
   * which adds a `/` or keeps the seed's own, puts a second slash in
   * front of it in every hero page URL of the queue.
   */
  lemma HotsSeedUrlsDoubleSlash(url: string, lines: seq<string>)
    ensures var eps := HotsEndpoints(lines);
      forall i :: 0 <= i < |eps| ==>
        StartsWith(eps[i], HEROES_PATH) && exists j :: OccursAt(SeedJoin(url, eps[i]), "/" + eps[i], j)
  {
    var eps := HotsEndpoints(lines);
    HotsEndpointsMeaning(lines);
    forall i | 0 <= i < |eps|
      ensures StartsWith(eps[i], HEROES_PATH)
      ensures exists j :: OccursAt(SeedJoin(url, eps[i]), "/" + eps[i], j)
    {
      var e := eps[i];
      assert e in eps;
      var l :| l in lines && Strip(l) != "" && e == HeroPath(Strip(l));
      HeroPathJoin(url, Strip(l));
    }
  }

  lemma HeroPathJoin(url: string, name: string)
    ensures StartsWith(HeroPath(name), HEROES_PATH)
    ensures exists j :: OccursAt(SeedJoin(url, HeroPath(name)), "/" + HeroPath(name), j)
  {
    var e := HeroPath(name);
    assert e[..|HEROES_PATH|] == HEROES_PATH;
    assert e[..1] == "/";
    SeedJoinDoublesSlash(url, e);
  }

  // ---------------------------------------------------------------------
  // League of Legends
  // ---------------------------------------------------------------------

  /** `img_url_fulfills_conditions`: no `ability`, no `assets` and no `/champion/splash` anywhere in the URL. */
  function LolImgOk(u: string): (r: bool)
    ensures r <==> forall i ::
      !OccursAt(u, "ability", i) && !OccursAt(u, "assets", i) && !OccursAt(u, "/champion/splash", i)
  {
    !Contains(u, "ability") && !Contains(u, "assets") && !Contains(u, "/champion/splash")
  }

  /** `endpoint_fulfills_conditions`: the link mentions `champions`. */
  function LolLinkOk(u: string): (r: bool)
    ensures r <==> exists i :: OccursAt(u, "champions", i)
  {
    Contains(u, "champions")
  }

  /** `preprocess_endpoint`: every `/en-us/champions` is cut out. */
  function LolPrepLink(u: string): string {
    Replace(u, "/en-us/champions", "")
  }

  const LolPolicy: Policy := Policy(LolImgOk, u => u, LolLinkOk, LolPrepLink)

  /** `LolScraper.get_endpoints`: there are none; the crawl starts from the seed alone. */
  function LolEndpoints(): seq<string> {
    []
  }

  /** A link under `/en-us/champions` is followed as the rest of its path. */
  lemma LolPrepLinkStripsPrefix(rest: string)
    requires !Contains(rest, "/en-us/champions")
    ensures LolPolicy.preprocessEndpoint("/en-us/champions" + rest) == rest
  {
    var none: string := [];
    ReplaceFirst(none, "/en-us/champions", rest, "");
    assert none + "/en-us/champions" + rest == "/en-us/champions" + rest;
    ReplaceAbsent(rest, "/en-us/champions", "");
  }

  /** The leftmost `/en-us/champions`, wherever it is, is cut out, and the rest of the link is rewritten in the same way. */
  lemma LolPrepLinkCutsFirst(a: string, b: string)
    requires forall i :: 0 <= i < |a| ==> !OccursAt(a + "/en-us/champions" + b, "/en-us/champions", i)
    ensures LolPolicy.preprocessEndpoint(a + "/en-us/champions" + b) == a + LolPolicy.preprocessEndpoint(b)
  {
    ReplaceFirst(a, "/en-us/champions", b, "");
  }

  /**
   * Because LoL rewrites the champion links it follows, a page listing
   * the same champion link twice gets it followed twice.
   */
  lemma LolChampionLinkFollowedTwice(curr: string, c: Links)
    requires "/en-us/champions" + "/ahri/" !in c.visitedEndpoints
    ensures var h := "/en-us/champions" + "/ahri/";
      var u := NextUrl(curr, "/ahri/");
      var l := Anchors(LolPolicy, true, curr, c, [Link(h), Link(h)]);
      l.enqueued == c.enqueued + [h, h] && l.queue == c.queue + [u, u]
  {
    var h := "/en-us/champions" + "/ahri/";
    assert h[7..16] == "champions";
    assert OccursAt(h, "champions", 7);
    assert !Contains("/ahri/", "/en-us/champions");
    LolPrepLinkStripsPrefix("/ahri/");
    assert h[..1] == "/";
    RewrittenLinkFollowedTwice(LolPolicy, curr, c, h);
  }

  /**
   * A non-recursive LoL crawl fetches the seed and nothing else, and one
   * iteration ends it, whatever the site answers: it finishes, or the
   * seed's request or one of its image saves aborts it. When no request
   * raises it finishes exactly when the budget allows one iteration.
   */
  lemma LolNonRecursiveFetchesSeedOnly(url: string, scrapeDirectly: bool, overwrite: bool, web: Web, fuel: nat)
    ensures var o := Run(LolPolicy, false, web, Start(Scraper(url, scrapeDirectly, overwrite, LolPolicy, LolEndpoints())), fuel);
      o.crawl.enqueued == [] && (o.crawl.fetched == [url] <==> fuel >= 1) && (o.status != OutOfFuel <==> fuel >= 1)
    ensures NeverRaises(web) ==>
      var o := Run(LolPolicy, false, web, Start(Scraper(url, scrapeDirectly, overwrite, LolPolicy, LolEndpoints())), fuel);
      o.status == Finished <==> fuel >= 1
  {
    var s := Scraper(url, scrapeDirectly, overwrite, LolPolicy, LolEndpoints());
    assert InitialQueue(url, []) == [url];
    ScrapeNonRecursive(s, web, fuel);
    if fuel >= 1 {
      NonRecursiveStep(LolPolicy, web, Start(s));
      var n := Step(LolPolicy, false, web, Start(s));
      assert n.queue == [] && n.fetched == [url];
    }
  }

  /** A champion link as the site's pages carry it. */
  const AHRI_LINK: string := "/en-us/champions" + "/ahri/"

  /** On every page LoL follows `AHRI_LINK` again, since only its rewritten form `/ahri/` is recorded. */
  lemma LolAhriLinkFollowed(curr: string, c: Links)
    requires AHRI_LINK !in c.visitedEndpoints
    ensures Anchors(LolPolicy, true, curr, c, [Link(AHRI_LINK)]) ==
      Links(c.queue + [NextUrl(curr, "/ahri/")], c.visitedEndpoints + {"/ahri/"}, c.enqueued + [AHRI_LINK])
  {
    var h := AHRI_LINK;
    assert h[7..16] == "champions";
    assert OccursAt(h, "champions", 7);
    assert !Contains("/ahri/", "/en-us/champions");
    LolPrepLinkStripsPrefix("/ahri/");
    assert h[..1] == "/";
    var a := Link(h);
    assert "href" in a && a["href"] == h;
    var noTags: seq<Attrs> := [];
    assert [a][..0] == noTags;
  }

  /** The state of the endless LoL crawl: one URL queued, longer than every visited URL, and the raw link never recorded. */
  ghost predicate LolLoopState(c: Crawl) {
    |c.queue| == 1 && (forall v :: v in c.visitedUrls ==> |v| < |c.queue[0]|) && c.visitedEndpoints <= {"/ahri/"}
  }

  /** One iteration of the endless LoL crawl fetches the queued URL, raises nothing and keeps the loop state. */
  lemma LolLoopStep(web: Web, c: Crawl)
    requires forall u :: web.page(u) == Response(200, Page([], [Link(AHRI_LINK)]))
    requires LolLoopState(c)
    ensures !Raises(LolPolicy, web, c)
    ensures LolLoopState(Step(LolPolicy, true, web, c)) && |Step(LolPolicy, true, web, c).fetched| == |c.fetched| + 1
  {
    var url := c.queue[0];
    assert url !in c.visitedUrls;
    assert AHRI_LINK !in c.visitedEndpoints by {
      assert |AHRI_LINK| != |"/ahri/"|;
    }
    var none: seq<Attrs> := [];
    assert PageSaves(LolPolicy, web.image, none) == Saves([], false);
    LolAhriLinkFollowed(url, Links(c.queue[1..], c.visitedEndpoints, c.enqueued));
    var n := Step(LolPolicy, true, web, c);
    assert n.queue == [NextUrl(url, "/ahri/")];
    assert |NextUrl(url, "/ahri/")| > |url|;
  }

  lemma {:induction false} LolLoopRunsOut(web: Web, c: Crawl, fuel: nat)
    requires forall u :: web.page(u) == Response(200, Page([], [Link(AHRI_LINK)]))
    requires LolLoopState(c)
    ensures var o := Run(LolPolicy, true, web, c, fuel);
      o.status == OutOfFuel && |o.crawl.fetched| == |c.fetched| + fuel
    decreases fuel
  {
    if fuel > 0 {
      LolLoopStep(web, c);
      LolLoopRunsOut(web, Step(LolPolicy, true, web, c), fuel - 1);
    }
  }

  /**
   * A recursive LoL crawl over a site whose every page answers 200 and
   * links `/en-us/champions/ahri/` never finishes, whatever the budget:
   * the link is checked raw but recorded rewritten, so every page queues it
   * again, joined to a longer URL each time, and every iteration fetches a
   * new page.
   */
  lemma LolRecursiveCrawlNeverFinishes(url: string, scrapeDirectly: bool, overwrite: bool, web: Web, fuel: nat)
    requires forall u :: web.page(u) == Response(200, Page([], [Link(AHRI_LINK)]))
    ensures var o := Run(LolPolicy, true, web, Start(Scraper(url, scrapeDirectly, overwrite, LolPolicy, LolEndpoints())), fuel);
      o.status == OutOfFuel && |o.crawl.fetched| == fuel
  {
    assert InitialQueue(url, []) == [url];
    LolLoopRunsOut(web, Start(Scraper(url, scrapeDirectly, overwrite, LolPolicy, LolEndpoints())), fuel);
  }

  // ---------------------------------------------------------------------
  // Smite
  // ---------------------------------------------------------------------

  /** `img_url_fulfills_conditions`: the URL mentions `god-abilities`. */
  function SmiteImgOk(u: string): (r: bool)
    ensures r <==> exists i :: OccursAt(u, "god-abilities", i)
  {
    Contains(u, "god-abilities")
  }

  /** `endpoint_fulfills_conditions`: the link mentions `gods`. */
  function SmiteLinkOk(u: string): (r: bool)
    ensures r <==> exists i :: OccursAt(u, "gods", i)
  {
    Contains(u, "gods")
  }

  const SmitePolicy: Policy := Policy(SmiteImgOk, u => u, SmiteLinkOk, u => u)

  /** The characters of the regex class `[-_'a-zA-Z]`. */
  predicate IsGodNameChar(c: char) {
    c == '-' || c == '_' || c == '\'' || 'a' <= c <= 'z' || 'A' <= c <= 'Z'
  }

  /** The text `"name":"` that opens every match. */
  const NAME_KEY: string := "\"name\":\""

  /** The end of the run of name characters starting at `i`. */
  function GodRunEnd(s: string, i: nat): (j: nat)
    requires i <= |s|
    ensures i <= j <= |s|
    ensures forall k :: i <= k < j ==> IsGodNameChar(s[k])
    ensures j < |s| ==> !IsGodNameChar(s[j])
    decreases |s| - i
  {
    if i < |s| && IsGodNameChar(s[i]) then GodRunEnd(s, i + 1) else i
  }

  /**
   * Where `"name":"([-_'a-zA-Z]+)"` matches at `i`, the index of the
   * closing quote. No backtracking is needed: the quote is not a name
   * character, so the greedy run is the only candidate.
   */
  function GodMatchAt(s: string, i: nat): (r: Option<nat>)
    requires i <= |s|
    ensures r.Some? ==> i + |NAME_KEY| < r.value < |s| && s[r.value] == '"'
  {
    if i + |NAME_KEY| <= |s| && s[i..i + |NAME_KEY|] == NAME_KEY then
      var j := GodRunEnd(s, i + |NAME_KEY|);
      if j > i + |NAME_KEY| && j < |s| && s[j] == '"' then Some(j) else None
    else None
  }

  /** `re.findall(r'"name":"([-_\'a-zA-Z]+)"', s[i:])`: the group of every match, left to right, matches not overlapping. */
  function FindGodNames(s: string, i: nat): seq<string>
    requires i <= |s|
    decreases |s| - i
  {
    if i == |s| then []
    else
      match GodMatchAt(s, i)
      case Some(j) => [s[i + |NAME_KEY|..j]] + FindGodNames(s, j + 1)
      case None => FindGodNames(s, i + 1)
  }

  /** A non-empty string of name characters. */
  predicate IsGodName(n: string) {
    |n| > 0 && forall k :: 0 <= k < |n| ==> IsGodNameChar(n[k])
  }

  /** Every name found is a non-empty run of name characters that occurs in the text between `"name":"` and `"`. */
  lemma {:induction false} FoundGodNames(s: string, i: nat)
    requires i <= |s|
    ensures forall n :: n in FindGodNames(s, i) ==> IsGodName(n) && exists p :: OccursAt(s, NAME_KEY + n + "\"", p)
    decreases |s| - i
  {
    if i < |s| {
      match GodMatchAt(s, i)
      case Some(j) =>
        FoundGodNames(s, j + 1);
        var n := s[i + |NAME_KEY|..j];
        assert s[i..j + 1] == NAME_KEY + n + "\"";
        assert OccursAt(s, NAME_KEY + n + "\"", i);
        assert IsGodName(n);
      case None =>
        FoundGodNames(s, i + 1);
    }
  }

  /** A one-word name between `"name":"` and `"` is found. */
  lemma FindGodNamesExample()
    ensures FindGodNames(NAME_KEY + "Ymir" + "\"", 0) == ["Ymir"]
  {
    var s := NAME_KEY + "Ymir" + "\"";
    assert s == "\"name\":\"Ymir\"";
    assert s[0..8] == NAME_KEY;
    var j := GodRunEnd(s, 8);
    assert IsGodNameChar(s[8]) && IsGodNameChar(s[9]) && IsGodNameChar(s[10]) && IsGodNameChar(s[11]);
    assert !IsGodNameChar(s[12]);
    assert j == 12;
    assert GodMatchAt(s, 0) == Some(12);
    assert s[8..12] == "Ymir";
  }

  /** A name with a space in it is outside the character class: the match at its key fails. */
  lemma GodMatchRejectsSpacedName()
    ensures GodMatchAt(NAME_KEY + "Ah Puch" + "\"", 0) == None
  {
    var s := NAME_KEY + "Ah Puch" + "\"";
    assert s == "\"name\":\"Ah Puch\"";
    var j := GodRunEnd(s, 8);
    assert IsGodNameChar(s[8]) && IsGodNameChar(s[9]) && !IsGodNameChar(s[10]);
    assert j == 10;
  }

  /** The clean-up `god.replace('"name":', '').replace('"', '')` applied to each found name. */
  function CleanGodName(god: string): string {
    Replace(Replace(god, "\"name\":", ""), "\"", "")
  }

  /** The clean-up leaves no quote behind, and leaves a name of name characters as it is. */
  lemma CleanGodNameMeaning(god: string)
    ensures '"' !in CleanGodName(god)
    ensures IsGodName(god) ==> CleanGodName(god) == god
  {
    var once := Replace(god, "\"name\":", "");
    ReplaceCharByNothing(once, '"');
    if IsGodName(god) {
      assert '"' !in god;
      NotContainsWhenCharAbsent(god, "\"name\":", 0);
      ReplaceAbsent(god, "\"name\":", "");
      NotContainsWhenCharAbsent(god, "\"", 0);
      ReplaceAbsent(god, "\"", "");
    }
  }

  /**
   * `SmiteScraper.get_endpoints`, from the status code of the god list
   * request and the text BeautifulSoup extracts from its body; `None` is
   * the `ValueError` raised for a status other than 200.
   */
  function SmiteEndpoints(status: int, text: string): Option<seq<string>> {
    if status != 200 then None
    else
      var gods := FindGodNames(text, 0);
      Some(seq(|gods|, i requires 0 <= i < |gods| => CleanGodName(gods[i])))
  }

  /** A status of 200 yields exactly the names found, the clean-up changing none of them. */
  lemma SmiteEndpointsAreFoundNames(status: int, text: string)
    ensures SmiteEndpoints(status, text).None? <==> status != 200
    ensures status == 200 ==> SmiteEndpoints(status, text) == Some(FindGodNames(text, 0))
  {
    if status == 200 {
      var gods := FindGodNames(text, 0);
      FoundGodNames(text, 0);
      var cleaned := seq(|gods|, i requires 0 <= i < |gods| => CleanGodName(gods[i]));
      forall i | 0 <= i < |gods|
        ensures cleaned[i] == gods[i]
      {
        assert gods[i] in gods;
        CleanGodNameMeaning(gods[i]);
      }
      assert cleaned == gods;
    }
  }

  // ---------------------------------------------------------------------
  // What the crawl guarantees per site
  // ---------------------------------------------------------------------

  /**
   * Dota 2, Heroes of the Storm and Smite keep their endpoints, so their
   * crawls follow every href at most once, and a crawl over finitely many
   * hrefs ends within one iteration per seed URL and per href: it
   * finishes, or a raising request aborts it, and it finishes when no
   * request raises.
   */
  lemma EndpointKeepingSites(s: Scraper, recursive: bool, web: Web, hrefs: set<string>, fuel: nat)
    requires s.policy == Dota2Policy || s.policy == HotsPolicy || s.policy == SmitePolicy
    ensures Distinct(Run(s.policy, recursive, web, Start(s), fuel).crawl.enqueued)
    ensures HrefsWithin(web, hrefs) && fuel >= 1 + |s.endpoints| + |hrefs| ==>
      Run(s.policy, recursive, web, Start(s), fuel).status != OutOfFuel &&
      (NeverRaises(web) ==> Run(s.policy, recursive, web, Start(s), fuel).status == Finished)
  {
    assert KeepsEndpoints(s.policy);
    ScrapeFollowsEachLinkOnce(s, recursive, web, fuel);
    if HrefsWithin(web, hrefs) && fuel >= 1 + |s.endpoints| + |hrefs| {
      ScrapeTerminates(s, recursive, web, hrefs, fuel);
    }
  }
}
