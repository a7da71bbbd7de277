# magic-icon-generator scraper core in Dafny

This project models the web-scraping half of magic-icon-generator. That half collects game ability icons from the web and stores them in a folder. Four parts are modelled:

- `BaseScraper`: the breadth-first crawl `scrape_images`. It starts from a seed URL and the site's endpoint list. It downloads every accepted `<img>` source of every page answering with status 200, and follows accepted `<a href="/...">` links.
- `scrape_images_directly` and the `scrape` dispatch between the two modes.
- The four site scrapers: Dota 2, Heroes of the Storm, League of Legends and Smite. Each has its four hooks (image filter, image rewrite, link filter, link rewrite) and its `get_endpoints`.
- The image helpers: the file name derived from a URL, the extension tests, `save_image_from_url` with its overwrite rule, and the `get_timestamp` string transformation.

Modules, one per source file, plus two helpers:

- `Wrappers`: the `Option` type.
- `Strings`: the string operations of Python the code relies on.
- `ImageProcess`: utils/image_process.py.
- `Utils`: utils/utils.py.
- `BaseScraper`: the engine and its methods.
- `CrawlProperties`: what a crawl guarantees.
- `GameScrapers`: scraper/game_specific_scrapers.py.

The outside world becomes parameters:

- `web: Web` bundles the two kinds of request. `web.page` answers page requests: a response raises, or carries a status code and the parsed page. The page is given as the attribute maps of its `<img>` and `<a>` tags, in document order.
- `web.image` (or `download`, where only images are requested) answers image requests: `string -> Option<Bytes>`, where `None` means the request raised.
- The destination folder is a map from file names to contents. It is passed in, and returned after the saves.
- `scrape_images` is a method with a `while` loop. It is proved equal to `Run`, a run of at most `fuel` iterations of the step function `Step`. The properties of a crawl are lemmas about `Run`.

The model follows the code as written, including its quirks:

- `IMG_EXTS` holds the extensions with the dot, but `get_img_ext` and `trim_img_ext` compare against it without the dot. So `get_img_ext` never finds an extension, `trim_img_ext` changes nothing, and direct mode saves nothing.
- The `<a>` loop tests the raw href against `visited_endpoints` but records the rewritten one. A link that a site rewrites (League of Legends) is therefore followed again each time it appears.
- The seed join looks only at the seed's trailing `/`. The page join drops the first character of the rewritten endpoint when the current URL ends with `/`.
- An exception from `requests.get` on a page is not caught in `scrape_images`, so it ends the crawl with status `Aborted`.
- `save_image_from_url` catches a failed download but not a failed `open`. A URL whose derived file name is `''`, `.` or `..` (an icon URL such as `DIR_ICON`, `https://cdn/abilities/`) makes `open` name the folder itself or its parent, which raises `IsADirectoryError`. That exception ends the `<img>` loop and the whole crawl (`Aborted`), or the direct-mode loop.

## Model

| member | source | states |
|---|---|---|
| Strings.Contains | scraper/game_specific_scrapers.py:84 | Python's `t in s` holds exactly when `t` occurs in `s` at some index |
| Strings.NotContainsWhenCharAbsent | scraper/game_specific_scrapers.py:84 | a string lacking one of the characters of `t` does not contain `t` |
| Strings.Replace | scraper/game_specific_scrapers.py:87 | definition of `str.replace` for a non-empty pattern, scanning from the left; its meaning is stated by `Strings.ReplaceAbsent`, `Strings.ReplaceFirst` and `Strings.ReplaceLeavesNone` |
| Strings.ReplaceAbsent | scraper/game_specific_scrapers.py:87 | `str.replace` with a pattern that does not occur returns the string unchanged |
| Strings.ReplaceAfterClean | scraper/game_specific_scrapers.py:87 | when no occurrence starts before index `n`, the first `n` characters are copied and the rest is rewritten on its own |
| Strings.ReplaceFirst | scraper/game_specific_scrapers.py:87 | the leftmost occurrence, wherever it is, becomes the replacement, what precedes it is kept, and what follows is rewritten in the same way |
| Strings.ReplaceLeavesNone | scraper/game_specific_scrapers.py:87 | when the replacement can take no part in an occurrence of the pattern, no occurrence is left in the result |
| Strings.Without | utils/utils.py:7 | removing a character leaves none of it and keeps every other character present |
| Strings.Count | utils/utils.py:7 | the number of occurrences of a character is at most the length, and zero exactly when it is absent |
| Strings.WithoutLength | utils/utils.py:7 | removing a character shortens the string by its number of occurrences |
| Strings.ReplaceCharByNothing | utils/utils.py:7 | `s.replace(c, '')` is the removal of every `c` |
| Strings.LastIndexOf | utils/image_process.py:63 | `rfind` of a character: -1 exactly when it is absent, otherwise an index holding it with none after it |
| Strings.AfterLast | utils/image_process.py:31 | `s[s.rfind(c) + 1:]` holds no `c`, is `s` when `c` is absent, and is otherwise preceded in `s` by a `c` |
| Strings.AfterLastIsSuffix | utils/image_process.py:31 | when `c` occurs, `s` ends with `c` followed by what `AfterLast` returns |
| Strings.StripLeading | scraper/game_specific_scrapers.py:76 | `lstrip()`: empty exactly for all-whitespace input, otherwise starts with a non-space and keeps the last character |
| Strings.StripTrailing | scraper/game_specific_scrapers.py:76 | `rstrip()`: empty exactly for all-whitespace input, otherwise ends with a non-space and keeps the first character |
| Strings.Strip | scraper/game_specific_scrapers.py:76-77 | `strip()` yields `''` exactly for a blank line, and otherwise starts and ends with a non-space |
| Strings.StripSplit | scraper/game_specific_scrapers.py:76 | the line is whitespace, then the stripped text, then whitespace |
| Strings.Lower | utils/image_process.py:67 | `lower()` keeps the length and maps each character on its own |
| ImageProcess.RunEnd | utils/image_process.py:30 | the greedy `[-_A-Za-z0-9]+` run: all name characters up to the end, and a non-name character (or the end) after it |
| ImageProcess.ExtAt | utils/image_process.py:30 | definition of the four-way extension alternation at one position; `ImageProcess.ExtAtMeaning` states when it matches |
| ImageProcess.ExtAtMeaning | utils/image_process.py:30 | one of the four extension alternatives (png, jpg, tiff, bmp) is found exactly when the text starts with one of them |
| ImageProcess.SearchFrom | utils/image_process.py:30 | `re.search`: a matching position, with no match at any earlier position, or -1 when there is none |
| ImageProcess.MatchAt | utils/image_process.py:30 | definition of a match of the pattern at one position, group 1 as its result; `ImageProcess.ImgNameMatched` and `ImageProcess.NameOfRun` state its shape |
| ImageProcess.ImgNameFromUrl | utils/image_process.py:19-31 | definition of `get_img_name_from_url`; `ImageProcess.ImgNameMatched`, `ImageProcess.ImgNameFallback`, `ImageProcess.ImgNameHasNoSlash`, `ImageProcess.ImgNameOfDirectoryEntry` and `ImageProcess.ImgNameDocExample` state its properties |
| ImageProcess.ImgNameMatched | utils/image_process.py:30-31 | when the pattern matches, the name is a non-empty run of name characters, a dot and one of the four extensions, with no `/` or `?` |
| ImageProcess.NameOfRun | utils/image_process.py:30 | a run of name characters, a dot and an extension has the shape of a matched name |
| ImageProcess.ImgNameFallback | utils/image_process.py:31 | without a match the name is what follows the last `/` (the whole URL when there is none) and holds no `/` |
| ImageProcess.ImgNameHasNoSlash | utils/image_process.py:30-31 | the derived file name never holds a `/`: joined to the folder it names an entry of the folder, or, for `''`, `.` and `..`, the folder itself or its parent |
| ImageProcess.ImgNameOfDirectoryEntry | utils/image_process.py:30-31 | a URL with no `.` before its last `/` that ends in `/`, `/.` or `/..` gives the name `''`, `.` or `..` |
| ImageProcess.ImgNameDocExample | utils/image_process.py:23-25 | the docstring example gives `fire.png` |
| ImageProcess.DocNoEarlierMatch | utils/image_process.py:30 | no `/` of the docstring URL before the file name starts a match |
| ImageProcess.GetImgExt | utils/image_process.py:55-68 | definition of `get_img_ext`; `ImageProcess.GetImgExtAlwaysNone` states what it returns |
| ImageProcess.GetImgExtAlwaysNone | utils/image_process.py:55-68 | `get_img_ext` returns `None` for every input, because the dot-less extension is compared with dotted entries |
| ImageProcess.TrimImgExt | utils/image_process.py:71-82 | definition of `trim_img_ext`; `ImageProcess.TrimImgExtIsIdentity` states what it returns |
| ImageProcess.TrimImgExtIsIdentity | utils/image_process.py:71-82 | `trim_img_ext` returns every name unchanged, for the same reason |
| ImageProcess.IsValidImgExt | utils/image_process.py:85-94 | definition of `is_valid_img_ext`; `ImageProcess.IsValidImgExtMeaning` and `ImageProcess.IsValidImgExtExamples` state its properties |
| ImageProcess.IsValidImgExtMeaning | utils/image_process.py:85-94 | `None` is never valid; a valid extension starts with a dot and has at least four characters; letter case does not matter |
| ImageProcess.IsValidImgExtExamples | utils/image_process.py:94 | `.PNG` and `.Tiff` are valid and `png` is not |
| ImageProcess.IsDirName | utils/image_process.py:48-51 | definition of the names `''`, `.` and `..`, which `os.listdir` never lists and under which `open` names a directory; `ImageProcess.ImgNameOfDirectoryEntry` shows URLs that derive them |
| ImageProcess.SaveRaises | utils/image_process.py:42-51 | definition of a raising call: the download succeeds and the derived name is `''`, `.` or `..`; `ImageProcess.SaveImageFromUrl` returns it as `raised` |
| ImageProcess.Saved | utils/image_process.py:42-52 | a failed download, an existing name without overwrite, or a name `''`, `.` or `..` (where `open` raises before writing) leaves the folder as it is; otherwise the name holds the content; no other file changes |
| ImageProcess.ApplySaves | scraper/base_scraper.py:103 | definition of the folder after `save_image_from_url` calls in order; `ImageProcess.NoOverwriteKeepsExisting` and `ImageProcess.SavesNeverWriteDirNames` state its properties |
| ImageProcess.NoOverwriteKeepsExisting | utils/image_process.py:48-49 | without overwrite no sequence of saves changes or removes a file already there |
| ImageProcess.SavesNeverWriteDirNames | utils/image_process.py:47-52 | no sequence of saves creates a file named `''`, `.` or `..` |
| ImageProcess.SaveImageFromUrl | utils/image_process.py:34-52 | the folder after the call is the folder with that one save applied, and the call raises exactly when the download succeeds and the name is `''`, `.` or `..` |
| Utils.SubSpaceDot | utils/utils.py:7 | `re.sub(r'[ .]', '_', s)` keeps the length and turns exactly the spaces and dots into `_` |
| Utils.Timestamp | utils/utils.py:5-7 | definition of the `replace` then `re.sub` chain on the text of the time; `Utils.TimestampIsSanitized`, `Utils.TimestampIsClean`, `Utils.TimestampLength`, `Utils.TimestampIdempotent` and `Utils.TimestampExample` state its properties |
| Utils.TimestampIsSanitized | utils/utils.py:5-7 | the `replace` then `re.sub` chain equals the one-character-at-a-time reading |
| Utils.TimestampIsClean | utils/utils.py:5-7 | the timestamp holds no `:`, no space and no `.` |
| Utils.TimestampLength | utils/utils.py:7 | only the colons disappear |
| Utils.SanitizedOfClean | utils/utils.py:7 | a string with no `:`, space or `.` is left unchanged |
| Utils.TimestampIdempotent | utils/utils.py:5-7 | sanitising a timestamp a second time changes nothing |
| Utils.SanitizedAppend | utils/utils.py:7 | the transformation works piece by piece |
| Utils.TimestampExample | utils/utils.py:5-7 | `2024-01-02 03:04:05.123456` becomes `2024-01-02_030405_123456` |
| BaseScraper.SeedJoin | scraper/base_scraper.py:66 | definition of the seed join; `CrawlProperties.SeedJoinDoublesSlash` states its consequence |
| BaseScraper.InitialQueue | scraper/base_scraper.py:64-69 | the first queue is the seed, then each endpoint joined to the seed, in list order |
| BaseScraper.NextUrl | scraper/base_scraper.py:121-122 | definition of the link join; `CrawlProperties.AnchorsAppend` states the URLs it appends |
| BaseScraper.ImgSrc | scraper/base_scraper.py:95 | definition of the source lookup, `src` before `data-src`; `CrawlProperties.TagSaveSources` states it case by case |
| BaseScraper.TagSave | scraper/base_scraper.py:95-102 | definition of the save one `<img>` tag requests; `CrawlProperties.TagSaveSources` and `CrawlProperties.ImageSavesFromAcceptedSources` state its properties |
| BaseScraper.ImageSaves | scraper/base_scraper.py:93-103 | definition of the saves a page requests when none raises; `CrawlProperties.ImageSavesFromAcceptedSources` and `CrawlProperties.PageSavesUntilRaise` state its properties |
| BaseScraper.PageSaves | scraper/base_scraper.py:93-103 | definition of the `<img>` loop, which stops at a raising save; `CrawlProperties.PageSavesUntilRaise` and `BaseScraper.PageSavesRaisedPrefix` state its properties |
| BaseScraper.PageSavesRaisedPrefix | scraper/base_scraper.py:94-103 | once a save has raised, the tags after it change nothing |
| BaseScraper.AnchorStep | scraper/base_scraper.py:109-123 | definition of one pass of the `<a>` loop; `CrawlProperties.AnchorsAppend`, `CrawlProperties.RewrittenLinkFollowedTwice` and `CrawlProperties.KeptLinkFollowedOnce` state its properties |
| BaseScraper.Anchors | scraper/base_scraper.py:106-123 | definition of the `<a>` loop; `CrawlProperties.AnchorsAppend`, `CrawlProperties.AnchorsFollowUnvisited`, `CrawlProperties.AnchorsNonRecursive`, `CrawlProperties.AnchorsKeepLinkInv` and `CrawlProperties.AnchorsKeepPending` state its properties |
| BaseScraper.Raises | scraper/base_scraper.py:87-103 | definition of an iteration that raises: `requests.get` on the page, or a save of its images; `CrawlProperties.RaisingSaveEndsRun` and `CrawlProperties.NeverRaisesStep` state its consequences |
| BaseScraper.Step | scraper/base_scraper.py:79-123 | definition of one iteration of the `while` loop; `CrawlProperties.StepExtends`, `CrawlProperties.StepSkipsFailedPages` and `CrawlProperties.StepLowersPending` state its properties |
| BaseScraper.Run | scraper/base_scraper.py:79-123 | definition of the loop run for at most `fuel` iterations; `CrawlProperties.RunExtends`, `CrawlProperties.RunKeepsFetchInv`, `CrawlProperties.RunKeepsLinkInv`, `CrawlProperties.RunNonRecursive` and `CrawlProperties.RunTerminates` state its properties |
| BaseScraper.Start | scraper/base_scraper.py:74-77 | definition of the state before the loop; `CrawlProperties.ScrapeFetchesSeedFirst` and `CrawlProperties.ScrapeNonRecursive` state where a crawl from it begins |
| BaseScraper.SaveTag | scraper/base_scraper.py:95-103 | one `<img>` tag adds its accepted and preprocessed source to the saves, raises exactly when that save raises, and the folder is the saves applied in order |
| BaseScraper.SaveImages | scraper/base_scraper.py:93-103 | the `<img>` loop hands the saves of `PageSaves` to `save_image_from_url` in tag order, raises exactly when `PageSaves` says so, and the folder is the saves applied |
| BaseScraper.FollowLinks | scraper/base_scraper.py:105-123 | the `<a>` loop leaves queue, visited endpoints and followed hrefs as the fold `Anchors` over the tags |
| BaseScraper.ScrapeImages | scraper/base_scraper.py:56-126 | the loop ends with the fetches, saves, followed hrefs and status of `Run` from the first queue; the folder is the saves applied in order |
| BaseScraper.VisitNext | scraper/base_scraper.py:80-123 | one pass of the `while` body leaves the state of `Step` and raises exactly when `Raises` holds; the folder is the saves applied |
| BaseScraper.DirectSaves | scraper/base_scraper.py:140-147 | definition of the saves of direct mode, up to a raising one; `BaseScraper.DirectSavesEmpty` states what they are |
| BaseScraper.DirectSavesRaisedPrefix | scraper/base_scraper.py:140-147 | once a save has raised, the endpoints after it change nothing |
| BaseScraper.ScrapeImagesDirectly | scraper/base_scraper.py:128-150 | direct mode saves each preprocessed endpoint that has an image extension, in order, up to a save that raises, and fetches no page; the folder is the saves applied |
| BaseScraper.SaveEndpoint | scraper/base_scraper.py:141-147 | one endpoint is saved exactly when its preprocessed form has an image extension, and the pass raises exactly when that save does |
| BaseScraper.DirectSavesEmpty | scraper/base_scraper.py:140-147 | direct mode never saves anything, since `get_img_ext` never finds an extension |
| BaseScraper.Scrape | scraper/base_scraper.py:152-156 | direct mode fetches nothing and leaves the folder as it is; otherwise the result is the crawl's |
| CrawlProperties.AnchorsNonRecursive | scraper/base_scraper.py:117 | with `recursive=False` no link is followed and nothing is recorded |
| CrawlProperties.AnchorsAppend | scraper/base_scraper.py:108-123 | the `<a>` loop only appends, at most one URL per tag, each followed href starting with `/` and accepted, and its URL joining the current URL with its rewritten form; `CrawlProperties.AnchorsFollowUnvisited` states which hrefs it follows and what it records |
| CrawlProperties.AnchorsFollowUnvisited | scraper/base_scraper.py:108-123 | the `<a>` loop records in `visited_endpoints` exactly the rewritten forms of the hrefs it follows; each followed href is the `href` of one of the tags, is followed only in recursive mode, and only when its raw form was neither visited before the loop nor recorded earlier in it |
| CrawlProperties.RewrittenLinkFollowedTwice | scraper/base_scraper.py:117-119 | a rewritten href appearing twice on a page is followed twice |
| CrawlProperties.KeptLinkFollowedOnce | scraper/base_scraper.py:117-119 | an href the site leaves as it is is followed once |
| CrawlProperties.ImageSavesFromAcceptedSources | scraper/base_scraper.py:94-103 | every saved URL is the rewritten, accepted source of one of the page's tags, at most one per tag |
| CrawlProperties.TagSaveSources | scraper/base_scraper.py:95-102 | `src` wins over `data-src`; a tag with neither, or with a rejected source, asks for no save |
| CrawlProperties.PageSavesUntilRaise | scraper/base_scraper.py:93-103 | the `<img>` loop hands over a prefix of the requested saves: all of them when none raises, otherwise up to and including the first that raises |
| CrawlProperties.NeverRaisesPageSaves | scraper/base_scraper.py:93-103 | when no request raises, the `<img>` loop hands over every requested save |
| CrawlProperties.StepExtends | scraper/base_scraper.py:79-123 | one iteration pops one URL, fetches it only if new, marks it visited and only appends to the traces; the queue stays first-in first-out: the URLs behind the popped one stay at its front, in order, and it grows by exactly the URLs enqueued |
| CrawlProperties.StepSkipsFailedPages | scraper/base_scraper.py:87-89 | a page that raises or does not answer 200 adds no save and no link |
| CrawlProperties.RaisingSaveEndsRun | scraper/base_scraper.py:94-103 | a raising save ends the crawl in that iteration, with the saves before and including it, no link of that page followed and nothing more fetched |
| CrawlProperties.SeedImageSaveRaises | scraper/base_scraper.py:87-103 | when the seed page's one accepted image cannot be saved, the crawl is `Aborted` after that single fetch and follows no link |
| CrawlProperties.RunExtends | scraper/base_scraper.py:79-123 | a run only appends to its traces (each old trace is a prefix of the new one), only adds visited URLs, and fetches at most one URL per iteration |
| CrawlProperties.ScrapeFetchesSeedFirst | scraper/base_scraper.py:76-87 | the seed URL is the first page fetched |
| CrawlProperties.RunKeepsFetchInv | scraper/base_scraper.py:81-82 | runs keep the fetch trace free of repeats and equal to the visited set |
| CrawlProperties.ScrapeFetchesEachUrlOnce | scraper/base_scraper.py:81-82 | no URL is fetched twice in a crawl |
| CrawlProperties.SeedJoinDoublesSlash | scraper/base_scraper.py:66 | the seed join of an endpoint starting with `/` always contains a doubled slash |
| CrawlProperties.NeverRaisesStep | scraper/base_scraper.py:87-103 | when no request raises, no iteration does |
| CrawlProperties.FreshMeaning | scraper/base_scraper.py:79-82 | the first-occurrence list holds each unvisited URL of the queue exactly once |
| CrawlProperties.FreshLength | scraper/base_scraper.py:79-82 | the first-occurrence list is no longer than the queue |
| CrawlProperties.NonRecursiveStep | scraper/base_scraper.py:79-123 | without recursion, on every site, one iteration pops its URL, fetches it when new and appends no link; when no request raises it does not raise |
| CrawlProperties.RunNonRecursive | scraper/base_scraper.py:79-123 | without recursion, on every site, a run follows no link, fetches a prefix of the queue's new URLs in order, and is not out of fuel once the budget covers the queue; when no request raises it finishes exactly then, having fetched them all |
| CrawlProperties.ScrapeNonRecursive | scraper/base_scraper.py:56-123 | a non-recursive crawl, on every site, never grows its queue, fetches at most 1 + the number of endpoints pages (a prefix of the distinct seed URLs in queue order), and that many iterations end it; when no request raises it takes exactly that many and fetches them all |
| CrawlProperties.AnchorsKeepLinkInv | scraper/base_scraper.py:117-119 | when endpoints are kept, the `<a>` loop follows no href twice |
| CrawlProperties.RunKeepsLinkInv | scraper/base_scraper.py:105-123 | when endpoints are kept, runs keep followed hrefs distinct and recorded |
| CrawlProperties.ScrapeFollowsEachLinkOnce | scraper/base_scraper.py:117-119 | a site that keeps endpoints has every href followed at most once |
| CrawlProperties.AnchorsKeepPending | scraper/base_scraper.py:117-123 | following a link trades one possible href for one queued URL |
| CrawlProperties.StepLowersPending | scraper/base_scraper.py:79-123 | each iteration lowers the remaining work by one |
| CrawlProperties.RunTerminates | scraper/base_scraper.py:79 | for a site that keeps its endpoints, a budget covering the remaining work ends the run: it finishes, or is aborted by a raising request; it finishes when nothing raises |
| CrawlProperties.ScrapeTerminates | scraper/base_scraper.py:56-123 | a crawl of a site that keeps its endpoints, over hrefs from a finite set, ends within 1 + endpoints + hrefs iterations: it finishes, or is aborted by a raising request; it finishes when nothing raises |
| GameScrapers.NatToString | scraper/game_specific_scrapers.py:21 | `str(n)`: decimal digits, at least one, a leading `0` only for zero |
| GameScrapers.ParseNatToString | scraper/game_specific_scrapers.py:21 | reading a printed id back gives the id |
| GameScrapers.HeroUrls | scraper/game_specific_scrapers.py:21-22 | definition of the hero-data URLs; `GameScrapers.HeroUrlIds` states their ids |
| GameScrapers.HeroUrlIds | scraper/game_specific_scrapers.py:21-22 | there are 137 hero-data URLs, the i-th asks for hero id i + 1, and none repeats |
| GameScrapers.FirstMalformed | scraper/game_specific_scrapers.py:28-39 | definition of the position of the first hero that raises `KeyError`; `GameScrapers.FirstMalformedMeaning` states it |
| GameScrapers.FirstMalformedMeaning | scraper/game_specific_scrapers.py:28-39 | the heroes before the first `KeyError` are well formed and the one at it is not |
| GameScrapers.NameEndpoints | scraper/game_specific_scrapers.py:31-37 | definition of the endpoints of one hero's abilities; `GameScrapers.NameEndpointsAreAbilityUrls` states them |
| GameScrapers.FeedEndpoints | scraper/game_specific_scrapers.py:28-39 | definition of the endpoints of one hero-data answer; `GameScrapers.MalformedHeroEndsAnswer` states where it stops |
| GameScrapers.Dota2Endpoints | scraper/game_specific_scrapers.py:24-39 | definition of the endpoints gathered over the hero-data URLs; `GameScrapers.Dota2GetEndpoints` computes them and `GameScrapers.Dota2EndpointsAreAbilityUrls` states what they are |
| GameScrapers.Dota2GetEndpoints | scraper/game_specific_scrapers.py:19-41 | the endpoints are the ability URLs gathered from each hero-data answer in order, each answer stopping at its first malformed hero |
| GameScrapers.AppendHeroes | scraper/game_specific_scrapers.py:28-39 | the hero loop of one answer appends the endpoints of the heroes before the first `KeyError` |
| GameScrapers.AppendAbilities | scraper/game_specific_scrapers.py:31-37 | the ability loop appends each accepted, preprocessed icon URL in order |
| GameScrapers.AbilityUrl | scraper/game_specific_scrapers.py:33-34 | definition of the CDN icon URL of an ability; `GameScrapers.AbilityUrlInjective` and `GameScrapers.Dota2EndpointsAreAbilityUrls` state its properties |
| GameScrapers.NameEndpointsAreAbilityUrls | scraper/game_specific_scrapers.py:31-37 | each ability gives exactly one endpoint, its CDN icon URL, in order |
| GameScrapers.AbilityUrlInjective | scraper/game_specific_scrapers.py:33-34 | different ability names give different icon URLs |
| GameScrapers.WellFormedEndpointsAreAbilityUrls | scraper/game_specific_scrapers.py:30-37 | every endpoint of the well-formed heroes of an answer is the CDN icon URL of some ability |
| GameScrapers.Dota2EndpointsAreAbilityUrls | scraper/game_specific_scrapers.py:19-41 | every Dota 2 endpoint is the CDN icon URL of some ability |
| GameScrapers.MalformedHeroEndsAnswer | scraper/game_specific_scrapers.py:28-39 | a `KeyError` on a hero drops it and the rest of its answer, and nothing before it |
| GameScrapers.HotsImgOk | scraper/game_specific_scrapers.py:83-84 | an image is kept exactly when `abilities` occurs in its URL |
| GameScrapers.HotsPrepImg | scraper/game_specific_scrapers.py:86-87 | definition of the HoTS image rewrite; `GameScrapers.HotsPrepImgKeepsOthers`, `GameScrapers.HotsPrepImgSwapsHexagon` and `GameScrapers.HotsPrepImgLeavesNoHexagon` state its properties |
| GameScrapers.HotsLinkOk | scraper/game_specific_scrapers.py:89-90 | definition of the HoTS link filter, which returns the href itself and so accepts exactly the non-empty ones; `GameScrapers.EndpointKeepingSites` states what the HoTS crawl then guarantees |
| GameScrapers.HotsPrepImgKeepsOthers | scraper/game_specific_scrapers.py:86-87 | a URL without `hexagon` is downloaded as it is |
| GameScrapers.HotsPrepImgSwapsHexagon | scraper/game_specific_scrapers.py:86-87 | the leftmost `hexagon`, wherever it is, becomes `square`, what precedes it is kept and the rest is rewritten in the same way |
| GameScrapers.HotsPrepImgLeavesNoHexagon | scraper/game_specific_scrapers.py:86-87 | no `hexagon` is left in a rewritten URL |
| GameScrapers.DirIconName | utils/image_process.py:30-31 | the icon URL `DIR_ICON` (`https://cdn/abilities/`) derives the empty file name |
| GameScrapers.DirIconAccepted | scraper/game_specific_scrapers.py:83-87 | HoTS accepts `DIR_ICON` and leaves it as it is |
| GameScrapers.HotsDirectoryIconEndsCrawl | scraper/game_specific_scrapers.py:83-87 | a HoTS seed page whose one `<img>` has source `DIR_ICON`, when that download succeeds, ends the crawl (`Aborted`) after one fetch, with no link followed |
| GameScrapers.HeroPath | scraper/game_specific_scrapers.py:78 | definition of a hero's endpoint; `GameScrapers.HotsEndpointsMeaning` states the paths built from the file |
| GameScrapers.HotsEndpoints | scraper/game_specific_scrapers.py:71-81 | definition of the HoTS endpoints of the file's lines; `GameScrapers.HotsEndpointsAppend`, `GameScrapers.HotsEndpointsMeaning` and `GameScrapers.HotsSeedUrlsDoubleSlash` state its properties |
| GameScrapers.HotsGetEndpoints | scraper/game_specific_scrapers.py:71-81 | the endpoints are the hero paths of the file's lines, in order |
| GameScrapers.HotsEndpointsAppend | scraper/game_specific_scrapers.py:75-79 | the endpoints of two parts of the file are those of the first then those of the second |
| GameScrapers.HotsEndpointsMeaning | scraper/game_specific_scrapers.py:75-79 | every endpoint is `/en-us/heroes/<stripped line>/` for a non-blank line, every non-blank line gives one, blank lines none |
| GameScrapers.HotsSeedUrlsDoubleSlash | scraper/game_specific_scrapers.py:78 | every hero endpoint starts with `/en-us/heroes/`, and its seed URL has a doubled slash in front of it |
| GameScrapers.LolImgOk | scraper/game_specific_scrapers.py:112-118 | an image is kept exactly when none of `ability`, `assets`, `/champion/splash` occurs in its URL |
| GameScrapers.LolLinkOk | scraper/game_specific_scrapers.py:123-124 | a link is kept exactly when `champions` occurs in it |
| GameScrapers.LolPrepLink | scraper/game_specific_scrapers.py:126-127 | definition of the LoL link rewrite; `GameScrapers.LolPrepLinkStripsPrefix` and `GameScrapers.LolPrepLinkCutsFirst` state its properties |
| GameScrapers.LolPrepLinkStripsPrefix | scraper/game_specific_scrapers.py:126-127 | a link under `/en-us/champions` is followed as the rest of its path |
| GameScrapers.LolPrepLinkCutsFirst | scraper/game_specific_scrapers.py:126-127 | the leftmost `/en-us/champions`, wherever it is, is cut out, and the rest of the link is rewritten in the same way |
| GameScrapers.LolChampionLinkFollowedTwice | scraper/game_specific_scrapers.py:123-127 | a champion link listed twice on a page is followed twice |
| GameScrapers.LolEndpoints | scraper/game_specific_scrapers.py:109-110 | definition of the LoL endpoints, which are none; `GameScrapers.LolNonRecursiveFetchesSeedOnly` states the crawl that starts from them |
| GameScrapers.LolNonRecursiveFetchesSeedOnly | scraper/game_specific_scrapers.py:109-110 | with no endpoints, a non-recursive crawl, on every site, follows no link, fetches the seed alone, and one iteration ends it (finished or aborted); when no request raises it finishes exactly when the budget allows one iteration |
| GameScrapers.LolAhriLinkFollowed | scraper/game_specific_scrapers.py:117-127 | on every page the raw champion link is followed again, since only its rewritten form is recorded |
| GameScrapers.LolLoopStep | scraper/base_scraper.py:79-123 | on that site one LoL iteration raises nothing, fetches one new URL and queues a single, longer URL |
| GameScrapers.LolLoopRunsOut | scraper/base_scraper.py:79-123 | on a site where every page answers 200 with a champion link, each iteration fetches a new, longer URL, so the run uses its whole budget |
| GameScrapers.LolRecursiveCrawlNeverFinishes | scraper/game_specific_scrapers.py:123-127 | a recursive LoL crawl over such a site never finishes: whatever the budget, it ends `OutOfFuel` after fetching one page per iteration |
| GameScrapers.SmiteImgOk | scraper/game_specific_scrapers.py:156-157 | an image is kept exactly when `god-abilities` occurs in its URL |
| GameScrapers.SmiteLinkOk | scraper/game_specific_scrapers.py:162-163 | a link is kept exactly when `gods` occurs in it |
| GameScrapers.GodRunEnd | scraper/game_specific_scrapers.py:151 | the greedy `[-_'a-zA-Z]+` run: name characters up to the end, and a non-name character (or the end) after |
| GameScrapers.GodMatchAt | scraper/game_specific_scrapers.py:151 | a match at an index ends at a closing quote past a non-empty name |
| GameScrapers.FindGodNames | scraper/game_specific_scrapers.py:151 | definition of `re.findall` with the god-name pattern, from the left; `GameScrapers.FoundGodNames`, `GameScrapers.FindGodNamesExample` and `GameScrapers.GodMatchRejectsSpacedName` state its properties |
| GameScrapers.FoundGodNames | scraper/game_specific_scrapers.py:151 | every found name is a non-empty run of name characters that occurs between `"name":"` and `"` |
| GameScrapers.FindGodNamesExample | scraper/game_specific_scrapers.py:151 | `"name":"Ymir"` yields `Ymir` |
| GameScrapers.GodMatchRejectsSpacedName | scraper/game_specific_scrapers.py:151 | `"name":"Ah Puch"` does not match: a name with a space is skipped |
| GameScrapers.CleanGodName | scraper/game_specific_scrapers.py:152 | definition of the two `replace` calls on a found name; `GameScrapers.CleanGodNameMeaning` states their effect |
| GameScrapers.CleanGodNameMeaning | scraper/game_specific_scrapers.py:152 | the clean-up leaves no quote and leaves a name of name characters unchanged |
| GameScrapers.SmiteEndpoints | scraper/game_specific_scrapers.py:143-154 | definition of Smite's `get_endpoints` on the status and text of the god-list answer; `GameScrapers.SmiteEndpointsAreFoundNames` states its result |
| GameScrapers.SmiteEndpointsAreFoundNames | scraper/game_specific_scrapers.py:143-154 | a status other than 200 is an error; otherwise the endpoints are exactly the names found, unchanged by the clean-up |
| GameScrapers.EndpointKeepingSites | scraper/game_specific_scrapers.py:43-53 | with the site policies `Dota2Policy`, `HotsPolicy` and `SmitePolicy` (the constants holding each site's four hooks), every href is followed at most once, and a crawl over hrefs from a finite set ends within 1 + endpoints + hrefs iterations, finished or aborted by a raising request; it finishes when nothing raises |

## Left out

- Network, HTML parsing and the file system are parameters. `requests.get`, BeautifulSoup, `os.mkdir`, `os.listdir` and `open` do not appear. The folder is a map passed in and returned, not a directory updated in place.
- Image downloads are a fixed function of the URL (`web.image`). The same URL saved twice gets the same bytes, or fails both times, so a transient failure followed by a success is not modelled. No property proved here depends on this.
- Progress printing (`log_progress`, `print`) and the `__str__` methods are left out: they produce output and nothing else.
- The property accessors of `BaseScraper` are left out. That includes `overwrite`, which calls itself forever; the engine reads `self._overwrite` directly.
- `start_scraping.py` is not part of this model. The matplotlib, PIL and numpy imports of utils/image_process.py are left out: nothing in the modelled functions uses them.
- `datetime.now()` is left out: `Utils.Timestamp` takes the text of the time as input.
- Dota 2: fetching each hero-data URL and `json.loads` are a parameter `feed`. Malformed JSON, which raises an error other than `KeyError`, is not modelled.
- Heroes of the Storm: reading the heroes file is left out; `GameScrapers.HotsGetEndpoints` takes the lines `readlines()` returns.
- Smite: the god-list request is left out; `GameScrapers.SmiteEndpoints` takes its status code and the text BeautifulSoup extracts.
- BaseScraper.ScrapeImages: a crawl runs at most `fuel` iterations. `CrawlProperties.ScrapeTerminates` gives a budget that is always enough for a site that keeps its endpoints and whose hrefs come from a finite set: the crawl then finishes, or is aborted by a raising request. A site that rewrites its endpoints (League of Legends) may never finish, as `GameScrapers.LolRecursiveCrawlNeverFinishes` shows, and a crawl over an unbounded site is modelled only up to its budget.
- ImageProcess.Saved: `open` failures other than a directory name are not modelled. Those are a name that is a subdirectory of the folder, a NUL byte, a name that is too long, or a missing permission. They depend on the file system, not on the URL alone.
- Strings.Lower: only ASCII letters are lowered, while Python's `lower()` also lowers other letters. `lower()` is applied to arbitrary input, but no non-ASCII character lowers, in Python, to one of `.png`, `.jpg`, `.tiff` or `.bmp`, so `IsValidImgExt` agrees with Python on every input and `GetImgExt` returns `None` either way.
- Strings.Replace: requires a non-empty pattern. Every call in the source uses a non-empty literal pattern.
- ImageProcess.MatchAt: the optional `\??` after the extension is not represented. It never makes a match fail and is not part of group 1.
- GameScrapers.AppendHeroes and GameScrapers.AppendAbilities: these are the two inner loops of `get_endpoints`, split out as methods. They append to the same list in the same order.
