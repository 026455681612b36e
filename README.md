# Product scraper scripts, modelled in Dafny

The repository fills product sheets for a set of toy and craft brands. Each
sheet is a CSV with one row per item, holding a UPC, a number and a name.
The scripts find each item's page on the brand's web site and write what
they learn to per-site CSV files, along with the product images:

- **Locating pages.** The URL discovery and probing scripts build or
  search for each row's product page. The fetchers download those pages,
  and the analysers classify what came back.
- **Extracting data.** The extractors pull a title, a description, images
  and dimensions out of the saved pages.
- **Matching catalogs.** The per-site scrapers and the retry scripts
  download a store's whole catalog or search it. They match sheet rows to
  products by UPC or by the share of name words the two have in common.
- **Filling sheets.** The fill, merge and download scripts write the
  results back into the sheets and fetch the images.

This project models those scripts. Every operation is a Dafny function or
method. Loops become methods proved against the functions that specify
them. The properties the scripts rely on are stated as contracts and
lemmas, among them:

- what every normaliser, slug and file-name sanitiser can produce;
- the order of precedence in each lookup and in each page classification;
- that each pagination loop stops where it should;
- that matches are the first best-scoring candidates, and that no title
  or UPC is used twice;
- that results come in sheet order;
- which rows a run skips, keeps or rewrites.

One module per script holds its operations. Shared modules hold the pieces
several scripts use:

| module | what it holds |
|---|---|
| `Text` | Python string operations over `seq<char>` |
| `Sheet` | sheet rows as maps from column to cell |
| `Matching` | the name normalisers, word-overlap ratios, first-hit and best-score loops |
| `Dicts` | Python dictionaries as insertion-ordered pair lists |
| `Paging` | paginated downloads |
| `Shopify` | Shopify catalog records and the name index |
| `Retry` | the machinery the retry scripts share |
| `Files`, `Url`, `Slugs`, `Markup`, `Json`, `Order`, `Overwrites` | file names and paths, URL quoting, slugs, tag stripping, JSON values, sorting, repeated `dict.update` |

The network and the file system are outside the model. A script's fetcher
or browser is a parameter giving the reply for each request, a folder is
the set of names it holds, and a parsed page is a record of the features
the script reads from it.

Where the code departs from what it evidently intends, the model keeps
the code as written, shows the input that exposes the difference, and adds
a corrected version that the rest of the model uses (see Findings).

## Model

| member | source | states |
|---|---|---|
| AnalyzeSite.SlugShape | scripts/analyze_site.py:41-45 | a slug holds only `[a-z0-9_-]`, never two hyphens in a row, at most 80 characters; a blank name gives "", and a non-blank one gives "" exactly when it has no word, space or hyphen character |
| AnalyzeSite.SlugIdempotent | scripts/analyze_site.py:41-45 | slugging a slug changes nothing |
| AnalyzeSite.UrlUnder | scripts/analyze_site.py:69-75 | each candidate URL starts with the base and "/" and ends with its key |
| AnalyzeSite.ProductUrlCandidates | scripts/analyze_site.py:63-76 | the UPC block (four URLs) comes first when there is a UPC and the slug block (two URLs) last when the name has a slug, over the base without trailing slashes; there are 4·[UPC] + 2·[slug] URLs, each under the base |
| AnalyzeSite.UpcCandidates | scripts/analyze_site.py:68-72 | the four UPC URLs, in order: `<base>/?p=<upc>`, `<base>/products/<upc>`, `<base>/product/<upc>`, `<base>/p/<upc>` |
| AnalyzeSite.SlugCandidates | scripts/analyze_site.py:73-75 | the two slug URLs, in order: `<base>/products/<slug>`, `<base>/product/<slug>` |
| AnalyzeSite.LdProductFlag | scripts/analyze_site.py:111-127 | the JSON-LD flag is set exactly when the first deciding block (a dict Product or a list) is a Product or a list holding one |
| AnalyzeSite.ScanLdProduct | scripts/analyze_site.py:111-127 | the block loop with its two breaks computes exactly that flag |
| AnalyzeSite.AnalyzeHtml | scripts/analyze_site.py:79-154 | short pages are empty, then 403/Forbidden pages blocked, then captcha pages; `blocked` holds exactly for those three; otherwise product on JSON-LD or og title and image, search on product links, 404 on a not-found title, else generic; the title is at most 200 characters |
| AnalyzeSite.LdFlagImpliesProduct | scripts/analyze_site.py:111-127 | a page this scan marks as a JSON-LD product also yields a Product to the shared extractor |
| AnalyzeSite.ListBlockHidesLaterProduct | scripts/analyze_site.py:122-127 | a list block without a Product stops the scan, so a Product block after it is missed here though the shared extractor finds it |
| AnalyzeSite.Classify | scripts/analyze_site.py:205-210 | one page type per candidate tried |
| AnalyzeSite.TryCandidates | scripts/analyze_site.py:205-224 | the working candidate is the first classified as a product; without one, the kept page is the first that is not blocked, captcha or 404, and none is kept only when every page is such |
| AnalyzeSite.PickCandidate | scripts/analyze_site.py:205-224 | the trial loop over the classified pages gives exactly that choice |
| AnalyzeSite.EmptyPageCanBeKept | scripts/analyze_site.py:217-222 | an empty page is not excluded from being kept for inspection |
| AuditHtmlPages.GetOg | scripts/audit_html_pages.py:47-53 | only og_title, og_description and og_image keys; each present exactly when the first tag of its property has non-empty content, holding that content stripped and cut at 200 |
| AuditHtmlPages.AddOg | scripts/audit_html_pages.py:49-52 | one property adds at most its own key and keeps every earlier entry |
| AuditHtmlPages.DetectPageType | scripts/audit_html_pages.py:56-68 | index exactly on the index marker; 404 exactly when not index and the first description reads as not found; product exactly when neither and there is a JSON-LD Product or an og title or description; unknown otherwise |
| AuditHtmlPages.SecondDescriptionDisagrees | scripts/audit_html_pages.py:60-62 | only the first description tag is read: a not-found notice in a second tag is a 404 for the extractor but not for the audit |
| AuditHtmlPages.NoNotFoundInToy | scripts/audit_html_pages.py:61 | the text "A toy" does not read as not found |
| AuditHtmlPages.HasProductSpecificContent | scripts/audit_html_pages.py:71-105 | 404 and index pages never count; otherwise a page counts exactly when the JSON-LD name rule, an og rule, the product id in the page, or an og value on an unknown page holds |
| AuditHtmlPages.LdNameSuffices | scripts/audit_html_pages.py:78-86 | a JSON-LD Product with a non-blank string name always counts |
| AuditHtmlPages.AuditedFiles | scripts/audit_html_pages.py:112-115 | a file is audited exactly when it is listed, ends in `.html` and is not the test sample; the audited files keep their listing order |
| AuditHtmlPages.CountType | scripts/audit_html_pages.py:131-132 | no more files of one type than readable files |
| AuditHtmlPages.CountReadable | scripts/audit_html_pages.py:124-129 | no more readable files than files |
| AuditHtmlPages.CountExtractBound | scripts/audit_html_pages.py:133-135 | no more files that can be extracted than readable files |
| AuditHtmlPages.TypesPartitionReadable | scripts/audit_html_pages.py:131-132 | the four type counts add up to the readable files |
| AuditHtmlPages.CountTypeAppend | scripts/audit_html_pages.py:131-132 | one more file adds one to its own type's count only |
| AuditHtmlPages.CountExtractAppend | scripts/audit_html_pages.py:133-135 | one more file adds one to the extractable count exactly when it counts |
| AuditHtmlPages.BumpKeepsMatch | scripts/audit_html_pages.py:132 | `page_types[pt] += 1` keeps the counter map equal to the type counts |
| AuditHtmlPages.AuditSite | scripts/audit_html_pages.py:108-150 | no directory and no files are reported as such; otherwise the total is the audited files cut by `files[:limit]` at a non-zero limit, a negative one dropping the last files, the type counts and the extractable count are exact, and `has_right_html` is "all extractable and some file" |
| AuditHtmlPages.CountOne | scripts/audit_html_pages.py:125-135 | one file: an unreadable one changes no counter; a readable one adds one to its type and, when it has product-specific content, to the extractable count; an unmodelled verdict flags the audit |
| AuditHtmlPages.CountFiles | scripts/audit_html_pages.py:124-142 | the file loop computes exact type counts and the extractable count |
| AuditHtmlPages.AnyUnmodelledExists | scripts/audit_html_pages.py:124-142 | the loop's flag for a verdict outside the model is set exactly when some file has one |
| AuditHtmlPages.RightHtmlMeansAll | scripts/audit_html_pages.py:148 | the type counts never exceed the total, and `has_right_html` implies every audited file was readable |
| Overwrites.UnionSpec | scripts/build_bruder_urls.py:53-60 | `dict.update` in turn: a key is in the result exactly when some map has it, and it takes the value of the last map that has it |
| Overwrites.UnionLast | scripts/build_bruder_urls.py:53-60 | a key of the merged map has a last map holding it, which gives its value |
| Overwrites.UnionValues | scripts/build_bruder_urls.py:53-60 | a property of every value of every map holds of every value of the merged map |
| BuildBruderUrls.PathMatch | scripts/build_bruder_urls.py:39 | the path group of the pattern runs to the first quote; the item group is the digits after the last slash before it, with something before that slash; the path starts with `/shop/en/` and ends with `/` and the item |
| BuildBruderUrls.AfterHref | scripts/build_bruder_urls.py:39 | after `href=` and a quote, an optional `http(s)://www.bruder.de` host, then the path match; the length counts host and path |
| BuildBruderUrls.MatchAt | scripts/build_bruder_urls.py:39 | a match at the start of the text begins with `href=` and a quote and yields a `/shop/en/` path ending in its all-digit item |
| BuildBruderUrls.MatchesSpec | scripts/build_bruder_urls.py:39-40 | every link `re.finditer` yields has a `/shop/en/` path ending in `/` and its item, and that item is all digits |
| BuildBruderUrls.PathExample | scripts/build_bruder_urls.py:39-40 | `cat/t/25"` after `/shop/en/` gives the path `/shop/en/cat/t/25` and the item `25` |
| BuildBruderUrls.NoCategoryExample | scripts/build_bruder_urls.py:39 | `/shop/en/25"` is no match: the pattern needs a slash between `/shop/en/` and the digits |
| BuildBruderUrls.AfterHrefMatch | scripts/build_bruder_urls.py:39 | the path after the quote gives its link with no host, with `https://www.bruder.de` and with `http://www.bruder.de` in front |
| BuildBruderUrls.HrefMatch | scripts/build_bruder_urls.py:39 | `href="` and `href='` both start a match |
| BuildBruderUrls.LinkKeysSpec | scripts/build_bruder_urls.py:43-47 | every key of a link is all digits naming the same item number; the item is a key; a short item also gives its five-digit zero-filled form; a five-digit non-zero item also gives its form without leading zeros |
| BuildBruderUrls.LinkUrlSpec | scripts/build_bruder_urls.py:41 | a `/shop/en/` path becomes the URL on `https://www.bruder.de` |
| BuildBruderUrls.PageLinksValues | scripts/build_bruder_urls.py:35-48 | every URL extracted from a page starts with `https://www.bruder.de/shop/en/` |
| BuildBruderUrls.PageLinksKeys | scripts/build_bruder_urls.py:35-48 | a key is extracted exactly when some link on the page has it among its keys, and the last such link gives its URL |
| BuildBruderUrls.LinkStep | scripts/build_bruder_urls.py:43-47 | the up to three assignments of one link equal the update by that link's map |
| BuildBruderUrls.ExtractProductLinks | scripts/build_bruder_urls.py:35-48 | the loop over the matches builds exactly the page's map |
| BuildBruderUrls.BuildUrls | scripts/build_bruder_urls.py:51-64 | `combined` is the in-order update by the links of every page that could be fetched |
| BuildBruderUrls.CombinedSpec | scripts/build_bruder_urls.py:51-67 | the saved cache holds only Bruder shop URLs, and a key takes the URL of the last fetched page that has it |
| DeepAnalyze.ColumnIn | scripts/deep_analyze.py:81-82 | the chosen column is one of the candidates and in the header; there is none exactly when no candidate is in the header |
| DeepAnalyze.ValidSamples | scripts/deep_analyze.py:84-92 | every valid sample has a UPC of at least 5 characters, and there are no more samples than rows |
| DeepAnalyze.SampleIndexBounds | scripts/deep_analyze.py:95-98 | the spread indices `i * max(1, len // n)` are strictly increasing and stay below the number of valid rows |
| DeepAnalyze.Spread | scripts/deep_analyze.py:93-98 | the spread pick keeps all valid rows when there are at most `n`, else exactly `n`; each is the valid row at its spread index, indices increasing |
| DeepAnalyze.LoadSamples | scripts/deep_analyze.py:75-98 | an empty sheet gives no samples; otherwise the spread pick of the valid rows under the first UPC, name and URL columns of the header; at most three samples, each with a UPC of at least 5 characters |
| DeepAnalyze.LastLdProduct | scripts/deep_analyze.py:131-149 | the JSON-LD result, when present, is a Product; it is absent exactly when no block yields a Product |
| DeepAnalyze.LastLdProductIsLast | scripts/deep_analyze.py:131-149 | a present result is the Product of the last block that yields one |
| DeepAnalyze.ScanLastProduct | scripts/deep_analyze.py:131-149 | the overwriting scan over the blocks computes the last-wins JSON-LD Product |
| DeepAnalyze.LastWinsUnlikeShared | scripts/deep_analyze.py:136-137 | with two Product blocks the shared extractor keeps the first and this script keeps the last |
| DeepAnalyze.ExtractPageData | scripts/deep_analyze.py:101-155 | the page title is single-spaced, the h1 at most 200 characters, the JSON-LD Product the last-wins one, and the og title, og description, og image and meta description the page's stripped values |
| DeepAnalyze.BaselineIsGeneric | scripts/deep_analyze.py:216-219 | the homepage's own data is always generic against itself |
| DeepAnalyze.JsonLdNotGeneric | scripts/deep_analyze.py:213-221 | a page with a title different from the homepage's (trimmed, ignoring case) and a JSON-LD Product is never generic |
| DeepAnalyze.IsHomepageReflexive | scripts/deep_analyze.py:228-231 | every URL is the homepage of itself |
| DeepAnalyze.TrailingSlashIgnored | scripts/deep_analyze.py:229 | appending a slash to the current URL never changes the homepage test |
| DeepAnalyze.SlashBeforeQueryCounts | scripts/deep_analyze.py:229-231 | since trailing slashes are stripped before the query is cut, `a/?q` is not the homepage `a` |
| DeepAnalyze.ResolveHref | scripts/deep_analyze.py:168-178 | protocol-relative hrefs get `https:`, hrefs not starting with `/` are kept as they are |
| DeepAnalyze.CollectLinks | scripts/deep_analyze.py:169-180 | collected links are pairwise distinct and unseen after stripping query and fragment, and each is a resolved product href of the list |
| DeepAnalyze.NothingCollectedNothingSeen | scripts/deep_analyze.py:169-180 | an anchor pass that collects nothing leaves the seen set unchanged |
| DeepAnalyze.FindProductLinks | scripts/deep_analyze.py:158-200 | at most five product links are returned |
| DeepAnalyze.FindProductLinksSpec | scripts/deep_analyze.py:158-200 | the first container (in selector order) holding a product link decides, with its own first five links; when none does, the first five of the whole document's; the result is empty exactly when neither any container nor the document has a product link |
| DeepAnalyze.CollectInto | scripts/deep_analyze.py:169-180 | the anchor loop appends exactly the collected links and grows the seen set as the collection function says |
| DeepAnalyze.FindProductLinksViaDom | scripts/deep_analyze.py:158-200 | the selector loop and the document-wide fallback compute the product-link function |
| DeepAnalyze.Evaluate | scripts/deep_analyze.py:365-418 | a failed navigation keeps the generic default entry; not-found follows the HTML; landing on the homepage never follows; a follow happens exactly when it is needed, a product link exists and the followed navigation succeeds, and goes to the first product link; a followed entry has the followed page's data and final URL, any other the first page's; generic is recomputed on the final data |
| DeepAnalyze.NonEmpty | scripts/deep_analyze.py:235-236 | the kept values are exactly the non-empty ones, no more than there were |
| DeepAnalyze.CardSetOfSeq | scripts/deep_analyze.py:237-238 | a list has no more distinct values than entries |
| DeepAnalyze.UniquenessCheck | scripts/deep_analyze.py:234-239 | the totals count the entries; unique titles and images are the sizes of the sets of non-empty values, each at most the non-empty count and the total |
| DeepAnalyze.CountIf | scripts/deep_analyze.py:247-248 | a count of entries never exceeds the number of entries |
| DeepAnalyze.ScoreStrategy | scripts/deep_analyze.py:242-249 | a strategy's score is between 0 and 28 per entry |
| DeepAnalyze.PickBest | scripts/deep_analyze.py:331-339 | the best strategy is absent (score -1) only without strategies; otherwise it is the first with the highest score, which no strategy exceeds |
| DeepAnalyze.StrategyUrl | scripts/deep_analyze.py:313-321 | every strategy URL starts with the base URL without its trailing slash followed by `/` |
| DeepAnalyze.RowSample | scripts/deep_analyze.py:85-90 | a row gives at most one sample, and only when its stripped UPC has at least five characters |
| DeepAnalyze.IsGeneric | scripts/deep_analyze.py:213-225 | a page without a title or with the homepage's title (trimmed, any case) is generic; otherwise it is generic exactly when it has no JSON-LD Product and shares the homepage's og image with a missing or identical description |
| DeepInvestigate.Todo | scripts/deep_investigate.py:347-353 | a site is investigated exactly when it is configured, unsolved and, with a target, is the target |
| DeepInvestigate.Samples | scripts/deep_investigate.py:45-60 | at most three samples, each with a UPC of at least 5 characters and no product URL |
| DeepInvestigate.NoUrlColumnNoUrl | scripts/deep_investigate.py:51-56 | without a URL column no valid sample carries a URL |
| DeepInvestigate.Sitemaps | scripts/deep_investigate.py:70 | every sitemap found in robots.txt is a non-empty run without whitespace |
| DeepInvestigate.SitemapsAtLabel | scripts/deep_investigate.py:70 | at a label followed by a value the value is taken and the scan resumes after it |
| DeepInvestigate.SitemapLine | scripts/deep_investigate.py:70 | a `Sitemap:` label in any case, whitespace and a value give that value first, then the sitemaps of the rest |
| DeepInvestigate.NoLabelNoSitemaps | scripts/deep_investigate.py:70 | a text without the label, in any case, names no sitemap |
| DeepInvestigate.TryRobots | scripts/deep_investigate.py:63-74 | robots.txt is found exactly on a 200 reply, then with its sitemaps and a snippet of at most 500 characters; otherwise the empty result |
| DeepInvestigate.ChosenChildren | scripts/deep_investigate.py:86-90 | at most two children are walked, all from the index, and all naming "product" when any child does |
| DeepInvestigate.SitemapOf | scripts/deep_investigate.py:77-99 | at most `max_products` URLs; found only on a 200 reply; found exactly when URLs were returned |
| DeepInvestigate.LeafFound | scripts/deep_investigate.py:95-97 | a leaf sitemap is found exactly when one of its locations is a product URL |
| DeepInvestigate.SitemapUrlsAreProducts | scripts/deep_investigate.py:84-97 | every URL the walk returns is a product location |
| DeepInvestigate.ChildUrlsAreProducts | scripts/deep_investigate.py:89-94 | every URL gathered from the children is a product location |
| DeepInvestigate.SelfIndexFindsNothing | scripts/deep_investigate.py:84-94 | an index listing only itself finds nothing however deep the walk goes |
| DeepInvestigate.TrySitemap | scripts/deep_investigate.py:77-99 | the recursive walk computes the sitemap result |
| DeepInvestigate.WalkChildren | scripts/deep_investigate.py:89-93 | the child loop gathers the URLs of the walked children in order |
| DeepInvestigate.SitemapSources | scripts/deep_investigate.py:236 | the sources are never empty and are the robots.txt sitemaps whenever there are any |
| DeepInvestigate.FindSitemap | scripts/deep_investigate.py:237-245 | the result is the walk of the first of the first three sources that finds anything, every earlier one finding nothing; otherwise not found after trying them all |
| DeepInvestigate.StealthUrls | scripts/deep_investigate.py:167-168 | two search URLs for each of the first two samples |
| DeepInvestigate.StealthProbe | scripts/deep_investigate.py:169-181 | a probe keeps its URL, fails exactly when navigation fails, is blocked exactly on a "just a moment" or "access denied" title, and keeps at most 80 title characters |
| DeepInvestigate.StealthOf | scripts/deep_investigate.py:164-183 | at most four probes, one per search URL in order |
| DeepInvestigate.PageProbe | scripts/deep_investigate.py:189-210 | a page probe keeps its URL, fails exactly when navigation fails, and is blocked exactly on a "just a moment" title |
| DeepInvestigate.SitemapPages | scripts/deep_investigate.py:186-212 | the first three sitemap product URLs are probed in order, none exactly when there are none |
| DeepInvestigate.VerdictOf | scripts/deep_investigate.py:306-333 | scraping is possible exactly when the Shopify API, the first applicable of sitemap pages, WordPress API and collections, or a stealth search succeeds; the method is "NONE" exactly when it is not; the Shopify API always wins |
| DeepInvestigate.SitemapShadowsApis | scripts/deep_investigate.py:312-322 | once the sitemap gave visited URLs, the WordPress and collection findings never change the verdict |
| DeepInvestigate.DecideVerdict | scripts/deep_investigate.py:305-336 | the step-by-step summary computes the verdict |
| DeepInvestigate.InvestigateSite | scripts/deep_investigate.py:215-337 | the findings hold the robots result, the walk of the first source that finds URLs (or not found), the stealth and sitemap-page probes and their verdict; every sitemap URL is a product location |
| DiscoverUrls.RowVal | scripts/discover_urls.py:52-60 | a configured column gives its stripped cell, even when blank; otherwise the first non-blank stripped default column, and "" only when all defaults are blank |
| DiscoverUrls.RowValSkipsBlankCells | scripts/discover_urls.py:56-59 | a blank first default cell does not hide a filled later one |
| DiscoverUrls.GetRowUrl | scripts/discover_urls.py:63-85 | with the URL column in use the URL is that of the probe script; any URL is non-empty; a pattern URL never equals the bare base; a missing placeholder value gives no URL |
| DiscoverUrls.BareBaseRefused | scripts/discover_urls.py:85 | the pattern `{base_url}` alone never yields a URL |
| DiscoverUrls.CleanUrl | scripts/discover_urls.py:128 | the clean URL is the URL cut at its first `?` and then its first `#` |
| DiscoverUrls.NoQueryFragmentKept | scripts/discover_urls.py:128 | a URL without `?` or `#` is kept as it is |
| DiscoverUrls.LinkOf | scripts/discover_urls.py:126-129 | a link's text is at most 200 characters |
| DiscoverUrls.AllProductLinks | scripts/discover_urls.py:110-130 | the anchor loop with its seen-path set computes the product links |
| DiscoverUrls.ProductLinksDistinct | scripts/discover_urls.py:113-125 | every link leads to a product path not seen before, carries at most 200 characters of text, and no two links share a path |
| DiscoverUrls.ProductLinksCover | scripts/discover_urls.py:115-129 | every kept anchor's product path was already seen or has a link |
| DiscoverUrls.WordRuns | scripts/discover_urls.py:154 | the split pieces are non-empty |
| DiscoverUrls.ScoreWords | scripts/discover_urls.py:154 | the scoring words are the pieces longer than one character |
| DiscoverUrls.CountHits | scripts/discover_urls.py:155-157 | the word hits are at most the number of words, and zero exactly when no word is in the URL or the text |
| DiscoverUrls.SlugMatchScore | scripts/discover_urls.py:139-158 | the score is never negative and is 0 for a blank query |
| DiscoverUrls.SlugMatchScoreMeaning | scripts/discover_urls.py:143-158 | the score is at most 15 plus the word count, at least 10 when the URL holds the query, and reaches the threshold 1 exactly when the URL or text holds the query or one of its words |
| DiscoverUrls.ArgMax | scripts/discover_urls.py:192 | the chosen position holds the largest score and every earlier position a strictly smaller one |
| DiscoverUrls.AcceptIsBest | scripts/discover_urls.py:192-196 | an accepted link is the first of highest score and scores at least 1; a non-empty list is refused only when every link scores below 1 |
| DiscoverUrls.SearchQueries | scripts/discover_urls.py:165-172 | the first query tried is the stripped query |
| DiscoverUrls.SearchQueriesShrink | scripts/discover_urls.py:165-172 | each shortened query is a strictly shorter prefix of the queries before it |
| DiscoverUrls.SearchTries | scripts/discover_urls.py:177-183 | five search URLs, all under the base |
| DiscoverUrls.FirstAcceptedIsFirst | scripts/discover_urls.py:184-196 | the search returns the accepted link of the first URL that has one, every earlier URL giving none; nothing when no URL does |
| DiscoverUrls.SearchSiteForProduct | scripts/discover_urls.py:161-198 | the query and URL loops return the first accepted link over the queries from longest to shortest, scoring against the original query |
| DiscoverUrls.DecideRow | scripts/discover_urls.py:228-260 | "no_url" exactly when no URL is built; "ok" exactly when the built URL answers 200 with a page that is not an index page, and then it is the resolved URL; a "search" row has search on, a UPC or name, and resolves to the first accepted search result for the UPC, else the name; any other built row carries the failure status of its built URL (index page, 404 or error); a resolved URL exactly for "ok" or "search" |
| DiscoverUrls.DecideBuilt | scripts/discover_urls.py:236-258 | for a built URL: "ok" exactly for a 200 that is not an index page, resolving to the built URL; "search" only with search on and a UPC or name, resolving to the first accepted search result; otherwise no resolved URL and the built URL's failure status |
| DiscoverUrls.RowsAllowed | scripts/discover_urls.py:229-230 | the limit lets through no more rows than there are, and no more than a positive limit |
| DiscoverUrls.Discover | scripts/discover_urls.py:225-263 | one result per allowed row, each the row's own decision |
| DiscoverUrlsPlaywright.GetSearchUrls | scripts/discover_urls_playwright.py:118-138 | no URLs exactly when the probe script's search URL is absent; with a template the single filled template; otherwise the five search URLs of discover_urls |
| DiscoverUrlsPlaywright.FirstThreeAgree | scripts/discover_urls_playwright.py:118-138 | without a template, the first three search URLs are those of get_all_product_data |
| DiscoverUrlsPlaywright.Collected | scripts/discover_urls_playwright.py:169-176 | every collected link text is at most 200 characters |
| DiscoverUrlsPlaywright.FirstLinks | scripts/discover_urls_playwright.py:185-194 | the links kept are those of some search page, and none exactly when no search page gave links |
| DiscoverUrlsPlaywright.SearchWithPlaywright | scripts/discover_urls_playwright.py:179-201 | the navigation loop with its break and the scoring compute the search result |
| DiscoverUrlsPlaywright.OnlyFirstPageCounts | scripts/discover_urls_playwright.py:186-200 | the result is the accepted best link of the first search page with links, whatever later pages hold |
| DiscoverUrlsPlaywright.DecideRow | scripts/discover_urls_playwright.py:249-271 | "no_url" exactly when no URL is built; "no_query" exactly when a URL is built but there is neither UPC nor name; with a built URL and a query, "search" exactly when the browser search for the UPC, else the name, gives a non-empty URL, which is then the resolved one; a built row keeps its built URL; the initial "error" never survives |
| DiscoverUrlsPlaywright.DecideOne | scripts/discover_urls_playwright.py:249-272 | the loop body computes the row's decision |
| DiscoverUrlsPlaywright.DiscoverAll | scripts/discover_urls_playwright.py:235-274 | one result per row the limit lets through, each that row's decision |
| DownloadImages.SanitizeSpec | scripts/download_images.py:37-44 | the sanitised id is non-empty, at most 200 characters, holds no reserved character, whitespace or path separator, and is "unknown" for a blank id |
| DownloadImages.SanitizeIdle | scripts/download_images.py:37-44 | an id of at most 200 safe characters is left as it is |
| DownloadImages.ExclusiveEndings | scripts/download_images.py:53-55 | no path ends with two of the tried extensions, so the order of the tries decides nothing |
| DownloadImages.ExtensionSpec | scripts/download_images.py:47-56 | the extension is one of .jpg, .png, .webp, .gif, .avif; each but .jpg is chosen exactly when the lower-cased path ends with it; everything else, ".jpeg" and an empty path give .jpg |
| DownloadImages.ExtensionIgnoresQuery | scripts/download_images.py:49 | a query or fragment after the path leaves the extension unchanged |
| DownloadImages.SliceTo | scripts/download_images.py:119-120 | Python's `xs[:k]`: a prefix of `xs` of length min(k, |xs|) for k ≥ 0, and max(0, |xs| + k) for a negative k |
| DownloadImages.ToProcessSpec | scripts/download_images.py:115-120 | the rows processed are the sheet's rows with both a product id and an image URL, in order; all of them without a limit, the first `limit` with a positive one |
| DownloadImages.Jobs | scripts/download_images.py:122-127 | one job per processed row, in order, each with the row's stripped URL and its file name |
| DownloadImages.JobNameSpec | scripts/download_images.py:125-127 | every file name is a safe, non-empty id of at most 200 characters followed by one of the five extensions |
| DownloadImages.StepSpec | scripts/download_images.py:128-136 | one row adds one to exactly one counter, never skips when overwriting, never removes a file, and leaves its file in the folder unless it failed |
| DownloadImages.DownloadsCounts | scripts/download_images.py:122-136 | downloaded + skipped + failed equals the number of rows processed; with overwriting nothing is skipped |
| DownloadImages.DownloadsFiles | scripts/download_images.py:122-136 | files are only ever added, and a site without a failure has every processed row's file in its folder |
| DownloadImages.AllPresentSkipped | scripts/download_images.py:128-131 | without overwriting, rows whose files all exist are all skipped and nothing is downloaded |
| DownloadImages.DownloadSite | scripts/download_images.py:115-136 | the row loop computes exactly the counters and folder of the fold `Downloads` over the processed rows |
| DownloadImages.SiteSavedOf | scripts/download_images.py:103-136 | a site with no failure has all its processed rows' files |
| DownloadImages.NoFailureAnySite | scripts/download_images.py:99-141 | a run whose failure total is 0 has no failure at any site |
| DownloadImages.FindSite | scripts/download_images.py:88-93 | finds the extracted file of the named site, and reports none only when no file has that stem |
| DownloadImages.DownloadTable | scripts/download_images.py:104-113 | a CSV without the product_id or image_url column adds nothing; otherwise its rows are downloaded |
| DownloadImages.DownloadAll | scripts/download_images.py:99-138 | the site loop sums the per-site counters exactly as `AllTotals` does |
| DownloadImages.Run | scripts/download_images.py:84-141 | exit code 0 exactly when the extracted folder and the named site exist and no download failed; the totals are those of every chosen site |
| ExtractProductData.NormText | scripts/extract_product_data.py:35 | the normalised text is single-spaced |
| ExtractProductData.Norm | scripts/extract_product_data.py:32-35 | the result is single-spaced, and "" for `None` |
| ExtractProductData.NormIdempotent | scripts/extract_product_data.py:32-35 | normalising twice is normalising once |
| ExtractProductData.FirstNonBlank | scripts/extract_product_data.py:39-41 | every key before the chosen one is blank and the chosen one is not |
| ExtractProductData.First | scripts/extract_product_data.py:38-43 | the default when every key is blank, otherwise the normalised text of the first non-blank key |
| ExtractProductData.BlockProduct | scripts/extract_product_data.py:61-66 | what a block yields is always a Product |
| ExtractProductData.ExtractJsonLdProduct | scripts/extract_product_data.py:46-67 | the result is a Product; it is absent exactly when no block yields one, and otherwise comes from a yielding block |
| ExtractProductData.AgreesWithoutGraph | scripts/extract_product_data.py:46-67 | without `@graph` blocks this scan picks the same Product as the shared one of scraper_lib |
| ExtractProductData.GraphProductMissed | scripts/extract_product_data.py:61-66 | a Product inside `@graph` is missed here and found by the shared scan |
| ExtractProductData.ListDoesNotStop | scripts/extract_product_data.py:63-67 | a list without a Product does not end this scan, while analyze_site's flag scan stops there |
| ExtractProductData.StringEntries | scripts/extract_product_data.py:100 | the kept entries are non-empty strings of the list, no more than it has |
| ExtractProductData.LdImages | scripts/extract_product_data.py:95-103 | the image is empty exactly when the list is, and is its first entry; a non-empty string is both; a list keeps its non-empty strings |
| ExtractProductData.Dimensions | scripts/extract_product_data.py:106-109 | without a weight value the dimensions are ""; with one, they are "Weight: ", the value, a space and the unit code ("g" when it has none), and there are none exactly when the value or unit is not a string |
| ExtractProductData.ExtractFromJsonLd | scripts/extract_product_data.py:89-110 | title and description are single-spaced and the images follow the image rule |
| ExtractProductData.ExtractMetaOg | scripts/extract_product_data.py:70-78 | only the four og keys occur, each present exactly when its property has content, holding the normalised content |
| ExtractProductData.AddOg | scripts/extract_product_data.py:74-77 | adding one property keeps every other key and adds only its own |
| ExtractProductData.ExtractMetaDescription | scripts/extract_product_data.py:81-86 | the description is single-spaced |
| ExtractProductData.DetectPageType | scripts/extract_product_data.py:113-127 | "index" exactly on an index marker in the first 12000 characters; "404" exactly on a not-found description without one; "product" exactly with neither and a JSON-LD Product or og title or description |
| ExtractProductData.ExtractGeneric | scripts/extract_product_data.py:130-160 | the page type is detected; JSON-LD values win; og values fill only blank ones, the secure image preferred and prepended when new; the meta description is the last resort |
| ExtractProductData.ProductImages | scripts/extract_product_data.py:170-171 | the product images are sources of the container without "logo" or "gfx" |
| ExtractProductData.RestImagesAppend | scripts/extract_product_data.py:176-179 | each further source extends the extra images by its absolute form exactly when it is not blank |
| ExtractProductData.BuildRest | scripts/extract_product_data.py:175-179 | the loop builds the list of extra images |
| ExtractProductData.WinningMovesOver | scripts/extract_product_data.py:168-184 | the image is replaced only when there was none and the container has product images; a title is kept, else the first heading's; description, dimensions and type are unchanged |
| ExtractProductData.ExtractWinningMoves | scripts/extract_product_data.py:163-185 | the Winning Moves result is the generic result with the container overrides |
| ExtractProductData.ExtractForSite | scripts/extract_product_data.py:195-202 | a result exists exactly when `LdPart` gives one (always for a page without a JSON-LD product; for one with a product, when its name, description and weight can be read as text), whatever the site; the result has the detected page type, that part's dimensions and the generic description, keeps a non-empty generic title, and every site but Winning Moves gets the generic result itself |
| ExtractProductData.MakeRow | scripts/extract_product_data.py:259-267 | an output row has exactly the seven fields, holding the given values |
| ExtractProductData.OutputRow | scripts/extract_product_data.py:241-267 | a read error gives the all-empty "error" row; otherwise the extracted fields with the description cut at 5000 characters and at most 20 image URLs joined with "\|" |
| ExtractProductData.RestImages | scripts/extract_product_data.py:176-179 | at most one further image per source, blank sources dropped |
| FetchChunk.StripHtml | scripts/fetch_chunk.py:25-28 | the result has no whitespace at either edge, no tag, no `&nbsp;` and no `&#39;`, and empty HTML gives "" |
| FetchChunk.StripHtmlIdle | scripts/fetch_chunk.py:28 | text without tags, `&nbsp;`, `&#39;` or edge whitespace comes back unchanged |
| FetchChunk.Unthrottled | scripts/fetch_chunk.py:52-60 | the answers kept are answers of the list, none of them a 429 refusal |
| FetchChunk.AsWrittenNeverRetries | scripts/fetch_chunk.py:52-60 | as written, no refusal is retried: the download equals the plain pagination without retry |
| FetchChunk.RetryingSkipsRateLimits | scripts/fetch_chunk.py:52-60 | retrying a 429 makes the download that of the answers without the 429 refusals |
| FetchChunk.RateLimitLosesCatalog | scripts/fetch_chunk.py:55-57 | a 429 on the first page loses the whole catalog as written and nothing of it with the retry |
| FetchChunk.FetchShopifyAll | scripts/fetch_chunk.py:31-61 | the request loop computes the pagination of the replies, 250 per page, stopping at an empty or short page or an error, retrying a 429. Corrected (see ## Findings): this uses the 429 retry that fetch_chunk.py:52-60 means to do. |
| FetchChunk.Requested | scripts/fetch_chunk.py:74 | the requested brands are never empty and are the arguments when there are any |
| FetchChunk.SaveAllSpec | scripts/fetch_chunk.py:76-140 | a file of no brand is untouched; a brand's file holds its download when asked for with a non-empty download, and is kept otherwise |
| FetchChunk.BrandFilesDistinct | scripts/fetch_chunk.py:79-134 | the six brands write six different files |
| FetchChunk.Run | scripts/fetch_chunk.py:72-142 | `main` leaves the files as the save-all function over the six brands says. Corrected (see ## Findings): this uses the 429 retry that fetch_chunk.py:52-60 means to do. |
| FetchPages.OutcomeClasses | scripts/fetch_pages.py:120-139 | every request outcome is exactly one of success, retryable failure and stopping failure |
| FetchPages.FetchFrom | scripts/fetch_pages.py:119-139 | no more requests than the limit are made, and a text comes only from a successful last attempt |
| FetchPages.Fetch | scripts/fetch_pages.py:110-142 | at most `1 + retries` requests are made |
| FetchPages.FetchHtml | scripts/fetch_pages.py:110-142 | the attempt loop returns the text of the retry policy |
| FetchPages.FetchedIsFirstSuccess | scripts/fetch_pages.py:119-139 | a returned text is that of a successful attempt within the limit, every earlier attempt having been retryable |
| FetchPages.SuccessIsFetched | scripts/fetch_pages.py:119-129 | a success after only retryable failures is returned, after exactly that many requests |
| FetchPages.StopIsFinal | scripts/fetch_pages.py:130-139 | a 4xx reply or an unexpected error ends the attempts with no text, whatever later attempts would give |
| FetchPages.RetriesExhausted | scripts/fetch_pages.py:119-142 | when every attempt is retryable all requests are made and nothing is returned |
| FetchPages.SafeChar | scripts/fetch_pages.py:220 | a character becomes a word character, `.` or `-`, and such characters are kept |
| FetchPages.SafeId | scripts/fetch_pages.py:219-224 | the file id is never empty and holds only `[\w.-]`: the sanitised UPC, else the sanitised number, else `row{i}` |
| FetchPages.SafeIdKeepsCleanIds | scripts/fetch_pages.py:219-220 | a UPC made only of `[\w.-]` is its own file id |
| FetchPages.FileNameIsNotLock | scripts/fetch_pages.py:225 | no page file name is the lock file name |
| FetchPages.NeedCount | scripts/fetch_pages.py:193-196 | the rows needing a page are at most all rows |
| FetchPages.SiteActionOf | scripts/fetch_pages.py:174-203 | a site is skipped as complete exactly when it has a sheet and a URL source, is not locked, is checked for completeness outside a dry run, and needs a positive number of pages that are all present; a locked site is skipped only outside a dry run |
| FetchPages.NothingNeededIsNeverComplete | scripts/fetch_pages.py:201 | a site with no buildable URL is never skipped as complete |
| FetchPages.NoUrlCount | scripts/fetch_pages.py:211-215 | the rows without a URL and those with one make up all rows |
| FetchPages.RunRowsCounts | scripts/fetch_pages.py:209-249 | every row without a URL is skipped and no other; at most the rows with a URL are counted; files are only added; a dry run counts every row with a URL and writes nothing |
| FetchPages.ExistingNotRefetched | scripts/fetch_pages.py:232-235 | a row whose file exists, without overwrite, is counted and makes no request |
| FetchPages.RowStepFiles | scripts/fetch_pages.py:211-248 | one row adds at most its own page file, and only when it has a URL |
| FetchPages.RunRowsFiles | scripts/fetch_pages.py:211-248 | the loop adds no file but the page files of rows with a URL (`RowFiles`) |
| FetchPages.RowFilesIndex | scripts/fetch_pages.py:211-248 | each of those page files is the file of some row with a URL, named after that row and its index |
| FetchPages.FetchRows | scripts/fetch_pages.py:211-249 | the row loop computes the row tally |
| FetchPages.FetchSite | scripts/fetch_pages.py:173-257 | a skipped site changes nothing; a dry run writes nothing; otherwise the lock is written, the rows fetched and the lock gone at the end |
| FetchPagesPlaywright.CollectedFromRow | scripts/fetch_pages_playwright.py:110-123 | each collected target is the target of some row at its index |
| FetchPagesPlaywright.CollectSplit | scripts/fetch_pages_playwright.py:110-123 | collecting two consecutive stretches of rows gives the targets of each, in order |
| FetchPagesPlaywright.TargetsAreRows | scripts/fetch_pages_playwright.py:111-123 | every target is the URL of a row with a URL under that row's file id |
| FetchPagesPlaywright.OneRowTargets | scripts/fetch_pages_playwright.py:112-123 | a row without a URL contributes nothing and a row with one exactly its target |
| FetchPagesPlaywright.TargetsSplit | scripts/fetch_pages_playwright.py:110-123 | splitting the sheet splits its targets |
| FetchPagesPlaywright.RowsWithUrl | scripts/fetch_pages_playwright.py:110-125 | the loop collects the targets in sheet order cut at the limit, stopping early when a non-zero limit is reached |
| FetchPagesPlaywright.RefusedIsReportBlocked | scripts/fetch_pages_playwright.py:155 | every page refused here is also blocked for probe_site_structure's report |
| FetchPagesPlaywright.VisitAllKeeps | scripts/fetch_pages_playwright.py:146-163 | the visit counts at most one page per target, only adds files, and never saves a refused page |
| FetchPagesPlaywright.ExistingNotVisited | scripts/fetch_pages_playwright.py:147-150 | without overwrite a target whose file exists is counted and never visited |
| FetchPagesPlaywright.VisitTargets | scripts/fetch_pages_playwright.py:137-163 | the visiting loop computes the visit of all targets |
| FetchPagesPlaywright.ExitCode | scripts/fetch_pages_playwright.py:96-168 | the exit code is 0 exactly for a known site with a sheet and a row with a URL, else 1 |
| FillAndDownload.StripHtml | scripts/fill_and_download.py:35-38 | The text has no edge whitespace, no tag and no `&nbsp;`, and an empty body gives an empty text. |
| FillAndDownload.StripHtmlIdle | scripts/fill_and_download.py:35-38 | Plain text with no tag, no `&nbsp;` and no edge whitespace comes back unchanged. |
| FillAndDownload.SlugShape | scripts/fill_and_download.py:41-48 | A slug holds only lower-case word characters and hyphens, never two hyphens in a row, and at most 80 characters. It never starts with a hyphen, and it ends with one only when it was cut. |
| FillAndDownload.SlugIdempotent | scripts/fill_and_download.py:41-48 | A slug that was not cut at a hyphen is its own slug. |
| FillAndDownload.TrimNumberSpec | scripts/fill_and_download.py:59 | A title key that ends in digits, with or without a hyphen before them, loses the number and its edge hyphens. A key without trailing digits only loses its edge hyphens. |
| FillAndDownload.Longest | scripts/fill_and_download.py:63-72 | The substring loop's pick is an index of the title index. |
| FillAndDownload.LongestSpec | scripts/fill_and_download.py:63-72 | The loop finds nothing exactly when no title of three or more characters contains, or is contained in, the key. Otherwise it picks such a title that no other candidate beats in length, and the first of those. |
| FillAndDownload.EmptySlugMatchesAnyTitle | scripts/fill_and_download.py:55-72 | As written, a name that slugs to nothing matches whenever some title has three or more characters, because the empty key is contained in every title. |
| FillAndDownload.EmptySlugExample | scripts/fill_and_download.py:51-72 | Against one product titled "abc", the name "!!" is matched as written and unmatched in the corrected version. |
| FillAndDownload.FuzzyMatchSpec | scripts/fill_and_download.py:51-72 | Nothing is found for an empty name, an empty index or an empty slug. An exact slug key wins. Any other result is the product of the trimmed slug, or of a longest candidate title. |
| FillAndDownload.FuzzyMatchOrder | scripts/fill_and_download.py:51-72 | Without an exact hit the trimmed slug's product wins. Without either, the result is the product of the first longest candidate title, and there is none exactly when no title is a candidate. A name with a slug always finds a product when some title is its slug or a candidate for it. |
| FillAndDownload.FindProductFuzzy | scripts/fill_and_download.py:51-72 | The loop over the title index computes the corrected fuzzy match. Corrected (see ## Findings): this uses FuzzyMatch, not FuzzyMatchAsWritten. |
| FillAndDownload.KeysNotEmpty | scripts/fill_and_download.py:244-261 | No loader ever indexes a product under the empty key, whether by SKU, tag, title or handle. |
| FillAndDownload.EndayTailKey | scripts/fill_and_download.py:309-318 | An Enday SKU ending in a hyphen and digits is also indexed under those digits with their leading zeros dropped ("0" when all are zeros). |
| FillAndDownload.AppendLookup | scripts/fill_and_download.py:247-248 | Adding a pair never hides a key already present, and gives an absent key the new product. |
| FillAndDownload.AddNewLookup | scripts/fill_and_download.py:245-261 | After one product's keys are added, a key already present keeps its product and a new key gives this product. |
| FillAndDownload.FirstWinsSpec | scripts/fill_and_download.py:244-261 | A key is absent from an index exactly when no product has it. Otherwise it gives the first product in catalog order that has it. |
| FillAndDownload.FirstWinsEmpty | scripts/fill_and_download.py:244-261 | An index is empty exactly when no product gives it a key. |
| FillAndDownload.AddKeys | scripts/fill_and_download.py:245-248 | The inner loop adds each key of one product unless the key is present. |
| FillAndDownload.LoadChunk | scripts/fill_and_download.py:232-264 | A missing or unreadable file gives nothing. Otherwise the result is the SKU, title and handle indexes built product by product. The model covers all four loaders, each with its own SKU keys. |
| FillAndDownload.LookupIn | scripts/fill_and_download.py:391 | A product found through an index is one of the indexed products. |
| FillAndDownload.FindProductSpec | scripts/fill_and_download.py:713-721 | A row's product is always one the chunk indexes. A row with neither a Number nor a name has none. Any SKU hit for the Number wins; for every loader except the plain Shopify one, a lower-cased Number held by the SKU index is that hit. Without a hit, a named row tries its slug among the titles, then among the handles, then the fuzzy title match, and an unnamed row has none. |
| FillAndDownload.FillSpec | scripts/fill_and_download.py:722-756 | A Picture the row already has is never replaced, and an empty one gets the product's first image. A usable body becomes the Description as stripped text of at most 2000 characters. Otherwise an existing Description is kept, or an empty one gets the title. No other column changes. |
| FillAndDownload.BlurbIsIgnored | scripts/fill_and_download.py:739 | A Chazak body that holds the company blurb never becomes a Description. |
| FillAndDownload.UnmatchedRowKept | scripts/fill_and_download.py:757-765 | A row for which no product is found is written as it was read, and so is every row with neither a Number nor a name. |
| FillAndDownload.FillRows | scripts/fill_and_download.py:713-765 | The row loop keeps the number of rows, and fills each row from its own match. Corrected (see ## Findings): this uses FuzzyMatch, not FuzzyMatchAsWritten. |
| FillAndDownload.PageRowSpec | scripts/fill_and_download.py:782-797 | The fallback changes only a row that has a name, a non-empty slug and no Description. It changes only the Description, to the page's description, its dimensions, or both joined by " \| ". |
| FillAndDownload.PerPageSpec | scripts/fill_and_download.py:770-799 | The per-page fallback keeps the number of rows and never counts more than the limit of pages. |
| FillAndDownload.PerPageAt | scripts/fill_and_download.py:780-797 | Row i gets its page exactly when fewer than the limit of pages gave something before it, and is kept as read otherwise. |
| FillAndDownload.PerPageGrows | scripts/fill_and_download.py:795-796 | The count of pages that gave something only grows along the rows. |
| FillAndDownload.PerPageUnderLimit | scripts/fill_and_download.py:780-797 | When the count ends under the limit, every row got its page. |
| FillAndDownload.FetchRow | scripts/fill_and_download.py:782-797 | One row of the fallback, computed against the one-row specification. |
| FillAndDownload.FetchPerPage | scripts/fill_and_download.py:770-799 | The fallback loop computes the per-page specification, and counts the pages that gave something. |
| FillAndDownload.FilledCoverage | scripts/fill_and_download.py:332-348 | The coverage of a previous output has a positive total. Its description and picture counts never exceed that total. |
| FillAndDownload.SkipBrandSpec | scripts/fill_and_download.py:686-690 | A brand is skipped exactly when it is not forced and at least seven in ten rows of its previous output hold a Description, or seven in ten a picture URL. An output whose every row has a Description is skipped. Without a previous output, or with `--force`, nothing is skipped. |
| FillAndDownload.ProcessBrand | scripts/fill_and_download.py:679-806 | Without a sheet, nothing is written. A brand the coverage test skips is not written either. A chunk whose SKU and title indexes are both empty keeps the old output. With any other chunk, every row is filled from its match. Without a chunk, Chazak runs the per-page fallback and the other brands write the sheet unchanged. Corrected (see ## Findings): this uses FuzzyMatch, not FuzzyMatchAsWritten. |
| FillAndDownload.EmptyChunkSpec | scripts/fill_and_download.py:706-708 | The chunk is kept out exactly when no product has an SKU key and none has a title key. |
| FillAndDownload.MainPlanSpec | scripts/fill_and_download.py:841-876 | No sheet is written twice by one run. A brand is processed generically exactly when it is listed, the run is not quick, it is neither a chunk brand nor scraper-only, and it has a sheet. |
| FillAndDownload.FixedBrands | scripts/fill_and_download.py:851-864 | The four brands processed first are distinct. None of them is a Shopify brand, and none is processed generically. |
| FillAndDownload.SafeImageFilename | scripts/fill_and_download.py:89-101 | The fallback image name is the four-digit index, "_", the sanitised stem of the URL path cut at 60 (or "image" when that is empty) and ".jpg"; it ends in ".jpg" and holds only word characters, dots, hyphens and underscores. |
| FillAndDownload.SafeNamePrefix | scripts/fill_and_download.py:98-101 | A fallback name starts with the row index padded to four digits. |
| FillAndDownload.SafeNamesDistinct | scripts/fill_and_download.py:89-101 | Different rows get different fallback names, whatever their URLs. |
| FillAndDownload.NumberBase | scripts/fill_and_download.py:109 | The base from the sheet Number is never empty, holds at most 60 characters, and holds only file-name characters. |
| FillAndDownload.JpgNamesReusable | scripts/fill_and_download.py:111-113 | `{base}.jpg` and every `{base}_{n}.jpg` count as reusable when the folder holds them. |
| FillAndDownload.JpgNamesAbsent | scripts/fill_and_download.py:111-118 | A folder offering nothing to reuse holds neither `{base}.jpg` nor `{base}_2.jpg`. |
| FillAndDownload.FreshNameAsWritten | scripts/fill_and_download.py:114-121 | As written, once nothing was reused, the name is always `{base}_2.jpg`. |
| FillAndDownload.ImageFilenameAsWritten | scripts/fill_and_download.py:104-122 | As written, a row without a Number gets the fallback name. A row with a Number and nothing to reuse gets `{base}_2.jpg`. |
| FillAndDownload.SecondNameExample | scripts/fill_and_download.py:104-121 | An empty folder and the Number "144" give "144_2.jpg" where "144.jpg" is meant. |
| FillAndDownload.ImageFilenameForRow | scripts/fill_and_download.py:104-122 | A row is given an existing file that starts with the Number's base and has an image suffix, the least such name, when there is one. Otherwise it gets `{base}.jpg`. Without a Number, it gets the fallback name. Corrected (see ## Findings): this uses `{base}.jpg` for a first image, not ImageFilenameAsWritten. |
| FillAndDownload.PrefixReuseExample | scripts/fill_and_download.py:111-113 | Reuse goes by prefix: a folder holding "1440.jpg" gives that file to the row numbered "144". |
| GetAllProductData.SearchUnder | scripts/get_all_product_data.py:55-59 | Each default search URL lies under the base URL. |
| GetAllProductData.GetSearchUrls | scripts/get_all_product_data.py:47-59 | There are no URLs exactly when there is no base or no query. A site template gives exactly one URL, and otherwise there are three default URLs under the base. The first URL is always the one probe_site_structure builds for the same site and query. |
| GetAllProductData.AfterScheme | scripts/get_all_product_data.py:102 | Removing a URL's scheme never makes it longer. |
| GetAllProductData.IsGenericPageAsWritten | scripts/get_all_product_data.py:86-107 | As written, a blank title is never generic, and a title already saved for another product always is. |
| GetAllProductData.EmptyHostMakesShortTitlesGeneric | scripts/get_all_product_data.py:95-104 | As written, a base URL without a host label makes every new title under 50 characters a store page, because the empty label is contained in every title. |
| GetAllProductData.NoSuffixEndsInT | scripts/get_all_product_data.py:97 | No store-like suffix ends in 't'. This is the step that shows "Robot" is not refused by its suffix. |
| GetAllProductData.EmptyBaseRefusesProducts | scripts/get_all_product_data.py:95-104 | With an empty base URL, the title "Robot" is refused as written but accepted as intended. |
| GetAllProductData.IsGenericPage | scripts/get_all_product_data.py:86-107 | A blank title is never generic, and a title seen before always is. A new title of 50 or more characters never is. A new short title is generic only through a store-like suffix or the site's non-empty host label. The corrected test never refuses more than the code as written, and agrees with it whenever the base has a host label. |
| GetAllProductData.FromProduct | scripts/get_all_product_data.py:126-137 | A Product block's title is its stripped name cut at 500 characters, its description the stripped description cut at 5000, its image the stripped string image or first list entry, and its dimensions the weight. It fails exactly where the script would raise: a name or description that is not a string, or a weight that cannot be printed. |
| GetAllProductData.SelectLd | scripts/get_all_product_data.py:118-153 | The scan returns only a Product. It finds one exactly when analyze_site's JSON-LD flag is set for the same script blocks. |
| GetAllProductData.ScanLd | scripts/get_all_product_data.py:118-153 | The scan loop, with its breaks, computes the block selection. |
| GetAllProductData.OgFill | scripts/get_all_product_data.py:158-161 | An og property fills a field only while that field is empty, and never makes it longer than its cut. |
| GetAllProductData.ExtractFromHtml | scripts/get_all_product_data.py:110-167 | Extraction fails exactly when the JSON-LD Product fails. A JSON-LD title keeps its title and image. Without one, og:image fills an empty image, and og:image:secure_url never replaces it. The description from JSON-LD is kept, the dimensions come from JSON-LD alone, and the usual cuts apply. |
| GetAllProductData.Unrefused | scripts/get_all_product_data.py:319-321 | A refusal page that gave no title, description or image keeps no dimensions either. Any other data is kept. |
| GetAllProductData.LongWords | scripts/get_all_product_data.py:204-205 | The result is exactly the query's words that are longer than two characters. |
| GetAllProductData.FirstContaining | scripts/get_all_product_data.py:200-202 | The first link whose lower-cased form contains the query, or the number of links when none does. |
| GetAllProductData.FirstContainingAny | scripts/get_all_product_data.py:203-206 | The first link that contains one of the words, or the number of links when none does. |
| GetAllProductData.BestProductLink | scripts/get_all_product_data.py:196-207 | No link gives nothing, and any result is one of the links. An empty query gives the first link. Otherwise the result is the first link containing the whole query, else the first link containing a long word of it, else the first link. |
| GetAllProductData.SanitizeId | scripts/get_all_product_data.py:210-211 | The id has the stripped id's length, cut at 200. It holds no unsafe character, and every unsafe character has become "_". |
| GetAllProductData.SanitizeIdKeepsCleanIds | scripts/get_all_product_data.py:210-211 | A clean, stripped id of at most 200 characters is kept as it is. |
| GetAllProductData.MakeItem | scripts/get_all_product_data.py:257-260 | A product id holds at most 200 characters. A row with a UPC is identified by its sanitised UPC. |
| GetAllProductData.BuildItems | scripts/get_all_product_data.py:255-262 | There is one item per sheet row, in order, stopping once the limit is reached. |
| GetAllProductData.SearchResult | scripts/get_all_product_data.py:289-300 | A search finds a product exactly when some search URL lists links, and the product is one of that page's links. |
| GetAllProductData.SearchProductUrl | scripts/get_all_product_data.py:290-300 | The search loop, which breaks at the first page that lists links, computes the search result. |
| GetAllProductData.SaveRow | scripts/get_all_product_data.py:323-338 | A generic page is saved as an empty row and leaves the seen titles alone. Any other page is written with its cuts, and its stripped, non-empty title joins the seen titles. Corrected (see ## Findings): this uses IsGenericPage, not IsGenericPageAsWritten. |
| GetAllProductData.ProcessRow | scripts/get_all_product_data.py:279-338 | A row keeps its product id. A row without a query is saved as an empty row. |
| GetAllProductData.ProcessRowRecords | scripts/get_all_product_data.py:324-330 | A processed row adds its own new title to the seen titles, and nothing else. |
| GetAllProductData.ProcessAllShape | scripts/get_all_product_data.py:279-351 | There is exactly one output row per item, in order, under the item's id. |
| GetAllProductData.SavedTitlesDistinct | scripts/get_all_product_data.py:277-338 | No two output rows carry the same stripped, non-empty title, so a title repeated across products is written once. |
| GetAllProductData.ProcessRows | scripts/get_all_product_data.py:277-351 | The main loop computes the specified output rows, and fails exactly where the specification fails. Corrected (see ## Findings): this uses IsGenericPage, not IsGenericPageAsWritten. |
| GetAllProductData.ImageExt | scripts/get_all_product_data.py:343-345 | The extension is ".png", ".webp" or ".jpg", and it is ".png" exactly when the lower-cased URL mentions ".png". |
| GetAllProductData.ImageExtAgreesWithShared | scripts/get_all_product_data.py:343-345 | For a URL without a query string or ".gif", the extension agrees with scraper_lib's image helper. |
| GetAllProductData.ImageFile | scripts/get_all_product_data.py:346 | The image file name starts with the row's product id. |
| GetAllProductData.CountWithData | scripts/get_all_product_data.py:360 | The count of rows with data never exceeds the number of rows, and it is zero exactly when no row has a title, a description or an image. |
| MergeDiscoveredUrls.NormSpec | scripts/merge_discovered_urls.py:22-23 | a normalised string has no edge whitespace and no capital letter, normalising twice changes nothing, and an empty string stays empty |
| MergeDiscoveredUrls.LowerKeepsSpace | scripts/merge_discovered_urls.py:23 | lower-casing neither creates nor removes whitespace, which is why stripping and lower-casing commute here |
| MergeDiscoveredUrls.RowStep | scripts/merge_discovered_urls.py:38-43 | the up to three assignments for one discovered row equal the update by that row's keys, all mapped to its URL |
| MergeDiscoveredUrls.LoadDiscovered | scripts/merge_discovered_urls.py:26-44 | a missing file gives the empty map; otherwise the row loop builds exactly the in-order update by every row's keys |
| MergeDiscoveredUrls.DiscoveredSpec | scripts/merge_discovered_urls.py:31-44 | a key is loaded exactly when some row with a URL sets it; it takes the URL of the last row that sets it; no loaded URL is empty |
| MergeDiscoveredUrls.BlankKeyExample | scripts/merge_discovered_urls.py:75-77 | as written, a row without UPC probes the blank key and receives the URL of a discovered row with neither UPC nor name; the corrected lookup gives "" |
| MergeDiscoveredUrls.BlankKeyOf | scripts/merge_discovered_urls.py:75-77 | for any discovered row with a URL but neither UPC nor name, a sheet row without a UPC gets that URL as written and "" from the corrected lookup |
| MergeDiscoveredUrls.LookupAgrees | scripts/merge_discovered_urls.py:77 | for a row with both a UPC and a name the corrected lookup is the lookup as written |
| MergeDiscoveredUrls.RowKeysShare | scripts/merge_discovered_urls.py:38-43 | a non-blank key a discovered row sets and a sheet row probes shares a non-empty UPC or name between the two rows |
| MergeDiscoveredUrls.LookupKey | scripts/merge_discovered_urls.py:77 | a non-empty lookup comes from one of the row's three probes, never the blank key, whose loaded value it is |
| MergeDiscoveredUrls.LookupSound | scripts/merge_discovered_urls.py:75-78 | a URL given to a sheet row is the URL of a discovered row sharing its non-empty UPC or its non-empty name |
| MergeDiscoveredUrls.LookupFinds | scripts/merge_discovered_urls.py:75-78 | a sheet row with the UPC and name of the last discovered row with that pair gets that row's URL |
| MergeDiscoveredUrls.LookupEmpty | scripts/merge_discovered_urls.py:77 | the lookup gives "" exactly when none of the row's non-blank probe keys is loaded |
| MergeDiscoveredUrls.MergedFields | scripts/merge_discovered_urls.py:71-73 | the header keeps every old field in order and contains "Product URL", adding at most one name |
| MergeDiscoveredUrls.MergedFieldsIdempotent | scripts/merge_discovered_urls.py:72-73 | merging a header twice adds the column once |
| MergeDiscoveredUrls.MergedRowSpec | scripts/merge_discovered_urls.py:74-78 | every rewritten row has the column, holding the URL its keys find, and keeps every other column unchanged. Corrected (see ## Findings): this uses LookupUrl, not LookupAsWritten. |
| MergeDiscoveredUrls.MergeRows | scripts/merge_discovered_urls.py:74-79 | the row loop rewrites each row in order, one output row per sheet row |
| MergeDiscoveredUrls.DiscoveredEmpty | scripts/merge_discovered_urls.py:63-66 | nothing is loaded exactly when no discovered row has a URL |
| MergeDiscoveredUrls.SiteWriteSpec | scripts/merge_discovered_urls.py:58-84 | a site is rewritten exactly when it has a sheet and a discovered row with a URL; the rewrite keeps every row and gives each the column. Corrected (see ## Findings): this uses LookupUrl, not LookupAsWritten. |
| MergeDiscoveredUrls.MergeSite | scripts/merge_discovered_urls.py:59-84 | one site of the loop writes exactly `SiteWrite` of its sheet and discovered file. Corrected (see ## Findings): this uses LookupUrl, not LookupAsWritten. |
| MergeDiscoveredUrls.Merge | scripts/merge_discovered_urls.py:53-87 | the sites visited are the named one, or every discovered site when the name is missing or empty; every write is for a visited site and is its `SiteWrite`; every visited site with a `SiteWrite` is written. Corrected (see ## Findings): this uses LookupUrl, not LookupAsWritten. |
| ProbeSiteStructure.GetSearchUrl | scripts/probe_site_structure.py:47-55 | There is no URL exactly when the stripped base or the stripped query is empty. A template has `{base_url}`, `{query}` and `{q}` substituted, in that order, with the quoted query. Without a template, the URL is the base followed by `/search?q=` and the quoted query. |
| ProbeSiteStructure.TemplateWithoutPlaceholders | scripts/probe_site_structure.py:53-54 | A template without placeholders is used as it stands. |
| ProbeSiteStructure.GetRowUrl | scripts/probe_site_structure.py:58-79 | A non-empty product URL column wins: its stripped value, or nothing when that is blank. Otherwise there is no URL exactly when the pattern or the stripped base is empty, or when the pattern uses `{name_slug}` or `{upc}` and that value is empty. |
| ProbeSiteStructure.NoPlaceholders | scripts/probe_site_structure.py:70-79 | A text without braces contains no placeholder. |
| ProbeSiteStructure.BareBaseReturned | scripts/probe_site_structure.py:58-79 | The pattern `{base_url}` alone gives the bare base, unlike the URL builders of test_fetch_one_per_site and fetch_pages. |
| ProbeSiteStructure.BasePatternIsBase | scripts/probe_site_structure.py:74-79 | The pattern `{base_url}` fills to the base itself when the base holds no brace. |
| ProbeSiteStructure.ReportHtml | scripts/probe_site_structure.py:82-130 | A report is blocked exactly when the page is shorter than 200 characters, or when "403" appears in the first 1000 characters, or "Forbidden" or the case-sensitive "sgcaptcha" in the first 2000. A blocked report carries nothing else. Otherwise the title is the page's stripped title cut at 80 ("" without one), the JSON-LD flag is analyze_site's flag, and the three og flags and the link count are the page's. |
| ProbeSiteStructure.ReportBlockedImpliesAnalyzeBlocked | scripts/probe_site_structure.py:85-93 | Every page this report calls blocked is also blocked for analyze_site's `analyze_html`. |
| ProbeSiteStructure.CaptchaOnlyInAnalyze | scripts/probe_site_structure.py:85-93 | The converse fails: a page whose only alarm is a plain "captcha" is blocked for `analyze_html`, but not in this report. |
| ProbeUrlPattern.RowRef | scripts/probe_url_pattern.py:52-57 | A reference is never empty, and its kind is "upc" or "number". A number reference is used only when the row has no UPC. |
| ProbeUrlPattern.FirstRowWithRefIsFirst | scripts/probe_url_pattern.py:47-58 | The reference found is that of some row, and no earlier row has one. |
| ProbeUrlPattern.FirstRowWithRefNone | scripts/probe_url_pattern.py:47-58 | Nothing is found exactly when no row has a reference. |
| ProbeUrlPattern.ShapesBraceFree | scripts/probe_url_pattern.py:29-38 | Every URL shape is free of braces outside its two placeholders. |
| ProbeUrlPattern.UpcRuleRebuildsUrl | scripts/probe_url_pattern.py:117-120 | The rewritten UPC pattern, filled as the URL builders fill it, gives the very URL that was probed, whatever the row's number and name slug. |
| ProbeUrlPattern.NumberRuleRebuildsUrl | scripts/probe_url_pattern.py:117-120 | The same holds for a number reference, whatever the row's UPC and name slug. |
| ProbeUrlPattern.LooksIgnoresCase | scripts/probe_url_pattern.py:69-77 | The product-page test ignores letter case, and a page under 2000 characters never passes it. |
| ProbeUrlPattern.FirstWorking | scripts/probe_url_pattern.py:115-125 | The first shape from a position on whose URL answers 200 with a product page. When there is none, no shape from that position on works. |
| ProbeUrlPattern.FindPattern | scripts/probe_url_pattern.py:115-125 | The loop stops at the first working shape and gives its rewritten config pattern, or nothing when no shape works. |
| ProbeUrlPattern.ProbeSite | scripts/probe_url_pattern.py:94-128 | A site has a pattern exactly when its status is a reference kind. A pattern needs a sheet with a reference, and it is the rewritten pattern of the first working shape for that reference. |
| ProbeUrlPattern.UpdateConfig | scripts/probe_url_pattern.py:133-144 | Updating the configuration keeps the same set of sites. |
| ProbeUrlPattern.UpdateConfigApplies | scripts/probe_url_pattern.py:138-142 | With one result per site, each configured site with a found pattern ends up with that `url_pattern` and without a product URL column. |
| ProbeUrlPattern.KeptUnlessProbed | scripts/probe_url_pattern.py:138-142 | A site that no result names is left unchanged. |
| Retry.SigWords | scripts/retry_other_sites.py:41 | The significant words keep their order. A word is significant exactly when it is not filler and is longer than two letters. |
| Retry.TakeSig | scripts/retry_other_sites.py:41-44 | The keywords number at most the maximum and are a subsequence of the words. With a significant word they are a prefix of the significant words, and otherwise a prefix of the fallback words. |
| Retry.KeywordsOrWords | scripts/retry_metal_razor.py:29-36 | With a significant word, the keywords are exactly the first `max` significant words; without one, they are the first `max` words. At most `max` of them, in word order. |
| Retry.ShortQueries | scripts/retry_other_sites.py:84-88 | The queries are the name, then the first two keywords joined when there are two, then the first keyword when there is one. |
| Retry.MissingSpec | scripts/retry_other_sites.py:57-67 | A (UPC, name) pair is retried exactly when it is a sheet row's pair, its UPC is not empty, and no earlier result has that UPC. |
| Retry.Absolute | scripts/retry_other_sites.py:448 | An absolute source is kept, and any other is put after the site address. |
| Retry.FallbackImage | scripts/retry_other_sites.py:442-449 | An image is found exactly when some selector finds a usable image, and it comes from such a selector. |
| Retry.FallbackText | scripts/retry_other_sites.py:451-458 | A text is found exactly when some selector finds a non-blank text. It is never empty and never longer than 500 characters. |
| Retry.ExtractPage | scripts/retry_other_sites.py:467-482 | Extraction raises exactly when a shared helper raises on the page, and finds nothing exactly when the page has no title. Otherwise the row carries the page's fields, the UPC and the URL. |
| Retry.ExtractWoo | scripts/retry_other_sites.py:429-464 | As for ExtractPage, the title, UPC and URL come from the page. A page image or description is kept. A missing image is the first usable image selector's source made absolute ("" when none is usable), and a missing description is the first non-blank text selector's stripped text cut at 500 characters ("" when none is). |
| Retry.AbsoluteIsWeb | scripts/retry_other_sites.py:447-448 | Behind an "http" address, any source that is not inline data becomes a web URL. |
| Retry.FallbackImageIsWeb | scripts/retry_other_sites.py:442-449 | Behind an "http" address, a fallback image is always a web URL and never inline data. |
| Retry.SearchAttempt | scripts/retry_other_sites.py:94-124 | A query finds a row only when its search landed. The row is then either the extraction of a landing on a product page, or that of a product link of the landing that was followed. |
| Retry.RaisedLandingEndsQuery | scripts/retry_other_sites.py:99-126 | When a landing on a product page raises during extraction, the query ends without following any link. |
| Retry.ScanItems | scripts/retry_other_sites.py:295-320 | A row found among the autocomplete items is the extraction of the loaded page of an item with a product URL, made absolute. |
| Retry.AutocompleteAttempt | scripts/retry_other_sites.py:286-322 | An autocomplete query finds a row only when it gave a JSON list. |
| Retry.WooExtractorKeepsUpc | scripts/retry_other_sites.py:462 | WooCommerce extraction writes the UPC it was given. |
| Retry.PageExtractorKeepsUpc | scripts/retry_other_sites.py:480 | Page extraction writes the UPC it was given. |
| Retry.SearcherKeepsUpc | scripts/retry_other_sites.py:94-124 | A search keeps the UPC whenever its extraction does. |
| Retry.CompleterKeepsUpc | scripts/retry_other_sites.py:313-314 | The autocomplete row carries the UPC it was searched for. |
| Retry.FirstFound | scripts/retry_other_sites.py:90-124 | Nothing is found exactly when no query finds the product. Otherwise the result is that of the first query that finds it. |
| Retry.RetryRow | scripts/retry_other_sites.py:90-127 | The query loop stops at the first query that finds the product. It computes the first-found result. |
| Retry.RetryKeys | scripts/retry_other_sites.py:82-131 | The loop over the missing rows collects, in order, the row found for each row that had one. |
| Retry.RetrySite | scripts/retry_other_sites.py:57-136 | Nothing is written when no row is missing. Otherwise the file holds the old results followed by the rows found, in sheet order. The count is the number of rows found. |
| Retry.NewRowIsMissing | scripts/retry_other_sites.py:82-124 | Each new row comes from a missing row and carries that row's UPC. |
| Retry.NewRowsAreMissing | scripts/retry_other_sites.py:57-124 | There is at most one new row per missing row. Each new row carries the non-empty UPC of a sheet row that had no result, so no result is duplicated. |
| RetryMetalRazor.MetalQueriesOf | scripts/retry_metal_razor.py:77-84 | There are at most four queries and none of them is empty. For a non-empty name, the first query is the name, and with fewer than two keywords the second is the name too. |
| RetryMetalRazor.MetalQueriesSpec | scripts/retry_metal_razor.py:77-84 | For a name and keywords with a non-empty first: three or more keywords give [name, k0 k1, k1 k2, k0]; two give [name, k0 k1, k0]; one gives [name, name, k0]; none gives [name, name]. |
| RetryMetalRazor.RazorQueriesDropFiller | scripts/retry_metal_razor.py:181-188 | The razor queries after the name use the name's first one or two significant words. None of those words is filler ("razor" included) or two letters or fewer. |
| RetryMetalRazor.NewRowsOfEachSite | scripts/retry_metal_razor.py:56-129 | The new rows of both sites are for sheet rows with a non-empty UPC that had no result. |
| RetryMetalRazor.Run | scripts/retry_metal_razor.py:265-272 | metal_earth runs, then razor. A site's file is rewritten only when it had missing rows, and the total is the sum of the sites' new rows. |
| RetryOtherSites.Keywords | scripts/retry_other_sites.py:32-44 | With a significant word, the keywords are exactly the first `max` significant words; without one, the first `max` words longer than one letter. At most `max` of them, in word order, and at least one whenever some word is longer than one letter. |
| RetryOtherSites.MetalQueriesOf | scripts/retry_other_sites.py:275-280 | The metal_earth queries are the name, then the first two keywords when there are two, then the second and third when there are three. |
| RetryOtherSites.AttemptsKeepUpc | scripts/retry_other_sites.py:94-124 | Every site's attempt gives rows with the UPC it searched for. |
| RetryOtherSites.NewRowsOfEachSite | scripts/retry_other_sites.py:57-124 | Every site's new rows are for rows that had no result, each with a non-empty sheet UPC. |
| RetryOtherSites.Run | scripts/retry_other_sites.py:493-507 | The four retries run in turn. A site's file is rewritten only when it had missing rows, and the total is the sum of the sites' new rows. |
| RetryPlaykidizBrowser.QueriesOf | scripts/retry_playkidiz_browser.py:79-82 | The queries are the name, then the first two keywords joined when there are two. |
| RetryPlaykidizBrowser.ExtractFallbacks | scripts/retry_playkidiz_browser.py:134-169 | A row needs a title, and it carries the UPC and the page URL. A missing image taken from the selectors is a web URL, never inline data. A missing description taken from the selectors holds at most 500 characters. |
| RetryPlaykidizBrowser.NewRowsAreNew | scripts/retry_playkidiz_browser.py:53-118 | The new rows are for sheet rows with a non-empty UPC that had no result. |
| RetryPlaykidizBrowser.Run | scripts/retry_playkidiz_browser.py:41-131 | The file is rewritten only when rows were missing, with the new rows after the old ones. The count is the number of new rows. |
| RetrySamvixApi.FetchAllProducts | scripts/retry_samvix_api.py:54-69 | The pagination loop computes the shared paging specification with pages of 100. It stops on a non-200 reply, an empty page or a short page, and it joins the pages in order. |
| RetrySamvixApi.Description | scripts/retry_samvix_api.py:77-78 | A description holds at most 500 characters. |
| RetrySamvixApi.ItemOf | scripts/retry_samvix_api.py:75-91 | A product gives no item exactly when its title is empty. An item keeps the title and its normalised form. |
| RetrySamvixApi.Catalog | scripts/retry_samvix_api.py:73-91 | The catalog is never longer than the product list, and every item in it is well formed. |
| RetrySamvixApi.CatalogStep | scripts/retry_samvix_api.py:84-91 | An untitled product adds nothing, and a titled one adds its item at the end. |
| RetrySamvixApi.BuildCatalog | scripts/retry_samvix_api.py:73-91 | The catalog loop computes the catalog specification. |
| RetrySamvixApi.Tiered | scripts/retry_samvix_api.py:38-46 | A score is 0 or lies in [0.4, 1]. A positive score needs a shared word. With one or two significant words, a positive score needs all of them, and is then 1. |
| RetrySamvixApi.MatchScore | scripts/retry_samvix_api.py:29-46 | A score is 0 or lies in [0.4, 1], and equal normalised names score 1. Otherwise a positive score needs a significant word in common, and a name of at most two significant words needs all of them in the title. |
| RetrySamvixApi.BestFree | scripts/retry_samvix_api.py:109-119 | The choice, when there is one, is a position in the catalog. |
| RetrySamvixApi.BestFreeSpec | scripts/retry_samvix_api.py:109-119 | The chosen item is unused and scores at least 0.4. No unused item scores more, and every earlier unused item scores less. There is no choice exactly when every unused item scores 0. |
| RetrySamvixApi.Taken | scripts/retry_samvix_api.py:104-119 | An item is taken only for a row with a UPC, and it is an unused catalog item. |
| RetrySamvixApi.OnceAppend | scripts/retry_samvix_api.py:119-129 | Taking an unused catalog item for a row with a UPC keeps every catalog title matched at most once. |
| RetrySamvixApi.ScanOncePerTitle | scripts/retry_samvix_api.py:99-129 | Over the whole sheet, the matches have distinct normalised titles, which are exactly the used ones. Each match is a catalog item, for a row with a UPC. |
| RetrySamvixApi.MatchRow | scripts/retry_samvix_api.py:104-119 | One row of the loop computes the item that row takes. |
| RetrySamvixApi.Entries | scripts/retry_samvix_api.py:122-129 | There is one result row per match, in order, built from the match. |
| RetrySamvixApi.MatchAll | scripts/retry_samvix_api.py:99-137 | The matching loop gives the result rows of the sheet scan in sheet order, and their count. |
| RetryShopifySites.GetAllShopifyProducts | scripts/retry_shopify_sites.py:28-45 | the downloaded catalog is the concatenation of the pages of 250 up to the first refusal, empty page or short page |
| RetryShopifySites.Tiered | scripts/retry_shopify_sites.py:120-126 | the kept share is 0 or between 0.4 and 1; a positive share needs a common word, and with one or two significant words only a full match (1.0) survives the 0.9 bar |
| RetryShopifySites.MatchScore | scripts/retry_shopify_sites.py:100-126 | equal normalised names score 1.0; otherwise a positive score needs a significant sheet word that is also a significant title word, and a short sheet name must be covered entirely; every score is 0 or at least 0.4 |
| RetryShopifySites.BestMatch | scripts/retry_shopify_sites.py:129-145 | the chosen record is always one of the index's records |
| RetryShopifySites.BestMatchSpec | scripts/retry_shopify_sites.py:129-145 | a record carrying the UPC as a barcode wins; without one there is no match exactly when every record scores 0, and otherwise the match is the first record of maximal score |
| RetryShopifySites.FindBestMatch | scripts/retry_shopify_sites.py:129-145 | the two loops return the best match over the index in insertion order, with score 0 for no match, 1.0 for a barcode hit and the name score otherwise |
| RetryShopifySites.Taken | scripts/retry_shopify_sites.py:187-197 | a row takes a match only when it has a UPC and a name, its UPC is not matched yet and the match's title is not used yet |
| RetryShopifySites.ScanStep | scripts/retry_shopify_sites.py:186-206 | the scan over one more row is the scan so far followed by that row's visit with its best match |
| RetryShopifySites.Entries | scripts/retry_shopify_sites.py:198-205 | one result row per new match, in order, each carrying the match's UPC, title, description, image URL and product URL |
| RetryShopifySites.FreshAppend | scripts/retry_shopify_sites.py:195-206 | taking a match whose UPC is new and whose title is unused keeps UPCs and titles distinct and the used and matched sets exact |
| RetryShopifySites.VisitFresh | scripts/retry_shopify_sites.py:186-206 | visiting one row keeps the new matches' UPCs and titles distinct and new |
| RetryShopifySites.ScanFresh | scripts/retry_shopify_sites.py:186-206 | over any rows, the new matches have pairwise distinct UPCs and titles, none of them matched or used before, and the sets left are the initial ones plus theirs |
| RetryShopifySites.ScanSources | scripts/retry_shopify_sites.py:186-206 | every new match is the best match of some sheet row with that UPC |
| RetryShopifySites.NoReuseOfExisting | scripts/retry_shopify_sites.py:172-197 | no new match reuses the title or the UPC of an earlier result row |
| RetryShopifySites.UsedTitles | scripts/retry_shopify_sites.py:180-184 | the used set is the normalised titles of the earlier results |
| RetryShopifySites.MatchRow | scripts/retry_shopify_sites.py:187-197 | one row takes the match `Taken` gives for its UPC, name and best match |
| RetryShopifySites.MatchRows | scripts/retry_shopify_sites.py:186-216 | the loop's new result rows and its used and matched sets are those of the scan over the sheet's rows |
| RetryShopifySites.ProcessSite | scripts/retry_shopify_sites.py:166-220 | the results are the earlier rows followed by the new matches in sheet order, and the count is the number of new matches |
| Shopify.CollectBarcodes | scripts/retry_shopify_sites.py:75-79 | the barcode set is exactly the stripped variant barcodes of at least five characters |
| Shopify.BarcodesAreLong | scripts/retry_shopify_sites.py:75-79 | every kept barcode has at least five characters and no surrounding whitespace |
| Shopify.ProductInfo | scripts/retry_shopify_sites.py:51-89 | an untitled product has no record; otherwise the record keeps the title, its normalised form and word set, the variant barcodes, the first image, the cleaned body text as description ("" for an empty body), and a product URL exactly when there is a handle (the same record is built by scrape_crayola.py:52-83) |
| Shopify.BuildNameIndex | scripts/retry_shopify_sites.py:48-91 | the index built by the loop is the specification's index of the catalog |
| Shopify.NameIndexSpec | scripts/retry_shopify_sites.py:48-91 | a normalised title is a key exactly when some titled product has it, and it maps to the last such product's record; the index has distinct keys (the same index is built by scrape_crayola.py:133-137) |
| Shopify.ProductToInfo | scripts/retry_shopify_sites.py:51-89 | the loop body computes the product's record as `ProductInfo` defines it, barcode loop included |
| Shopify.Records | scripts/retry_shopify_sites.py:51-54 | at most one record per product, and every record is well formed: titled, normalised, description within 500 characters, barcodes of five or more |
| Shopify.RecordsStep | scripts/retry_shopify_sites.py:51-54 | an untitled product adds no record, a titled one adds its record last |
| ScrapeBrands.WinningMovesSpec | scripts/scrape_brands.py:155-163 | the Winning Moves page name is the lower-cased name's word characters; a URL exists exactly when there is one, and it is the base without trailing slashes followed by `/product/<name>.asp` |
| ScrapeBrands.ItemNoSpec | scripts/scrape_brands.py:139 | zero-filling a digit Number keeps its value, gives at least five digits and leaves a long Number alone |
| ScrapeBrands.BruderSpec | scripts/scrape_brands.py:132-151 | no Number gives no URL; with one, the first cached URL of the Number, its zero-filled item number and the Number without leading zeros wins, in that order; without a hit the URL is `https://www.bruder.de/shop/en/<slug of the name>/<item number>`, and there is none exactly when the name is blank or has no slug |
| ScrapeBrands.FirstMatch | scripts/scrape_brands.py:205-209 | the pattern chosen is the first in table order that matches the name, and none is chosen only when none matches |
| ScrapeBrands.WordAt | scripts/scrape_brands.py:212 | a colour word found at a position is one the text starts with and that ends at a word boundary; none is found only when no word does |
| ScrapeBrands.DropWordsAll | scripts/scrape_brands.py:212 | removing the words keeps any property every character of the name has |
| ScrapeBrands.DropWordsIdle | scripts/scrape_brands.py:212 | a name in which no colour word starts at a word boundary is left unchanged |
| ScrapeBrands.RazorFallbackShape | scripts/scrape_brands.py:211-214 | the fallback handle holds only lower-case letters, digits, `_` and `-`, has no doubled or edge hyphen and at most 50 characters |
| ScrapeBrands.RazorHandleSpec | scripts/scrape_brands.py:201-217 | a name matching a table pattern gets the handle of the first such pattern; any other handle is non-empty and slug-shaped, at most 80 characters |
| ScrapeBrands.RazorProductUrl | scripts/scrape_brands.py:201-218 | the pattern loop stops at the first match and yields exactly the Razor URL, `<base>/product/<handle>/` |
| ScrapeBrands.GenericListingExample | scripts/scrape_brands.py:271-274 | as written, a name without slug characters gives `<base>/products/`, the listing itself; the corrected adapter gives no URL |
| ScrapeBrands.GenericUrlSpec | scripts/scrape_brands.py:271-275 | the corrected generic URL ends in a non-empty slug and equals the URL as written whenever it exists |
| ScrapeBrands.GetProductUrl | scripts/scrape_brands.py:258-275 | the dispatch on the brand id gives exactly the adapter's URL. Corrected (see ## Findings): this uses GenericUrl, not GenericUrlAsWritten. |
| ScrapeBrands.ProductUrlNeedsName | scripts/scrape_brands.py:50-57 | every adapter but Bruder's and Rhode Island's needs a name; Chazak and Metal Earth rows get a URL exactly when the name has a slug |
| ScrapeBrands.SlugAdaptersSpec | scripts/scrape_brands.py:50-57 | Chazak (and Metal Earth, scripts/scrape_brands.py lines 222-230) give a URL exactly when the name has a slug; it is the base without trailing slashes, `/products/` (Chazak) or `/` (Metal Earth), and a non-empty slug of at most 80 characters that does not start with `-` and holds no `/` or `?` |
| ScrapeBrands.RhodeIslandUrlSpec | scripts/scrape_brands.py:234-239 | the search term is the stripped lookup code when the row has one, else the stripped item name; a blank term gives no URL, otherwise the search decides |
| ScrapeBrands.UrlImageName | scripts/scrape_brands.py:362-365 | the URL-derived image name is the four-digit index, "_", the sanitised stem of the URL path cut at 50 characters, and ".jpg" |
| ScrapeBrands.SafeImageName | scripts/scrape_brands.py:349-367 | without a Number the URL-derived name; with one, image 0 reuses the first reusable file or is `<base>.jpg`, and image j > 0 is `<base>_<j+1>.jpg` |
| ScrapeBrands.RowImageNamesDistinct | scripts/scrape_brands.py:359-361 | the up to three images of one row get different file names whenever image 0's name is not itself a numbered `<base>_<n>.jpg` |
| ScrapeBrands.PlainNameNotNumbered | scripts/scrape_brands.py:361 | `<base>.jpg`, image 0's name when nothing is reused, is never a numbered name, so the distinctness holds for it |
| ScrapeBrands.ReusedSecondNameCollides | scripts/scrape_brands.py:355-359 | a folder holding `<base>_2.jpg` but not `<base>.jpg` makes image 0 reuse `<base>_2.jpg`, the name image 1 also gets |
| ScrapeBrands.UpdateSpec | scripts/scrape_brands.py:481-492 | the Picture is set only when the row has none and the page has an image; the Description is the page's (at most 2000 characters) or the row's, then the dimensions after " \| "; no other column changes |
| ScrapeBrands.ScrapedRowSpec | scripts/scrape_brands.py:468-479 | a restored row takes the previous run's Description and Picture; a row without a URL or page is written as read; other columns are kept |
| ScrapeBrands.OutFields | scripts/scrape_brands.py:445-449 | the header keeps the sheet's fields as a prefix and contains Description and Picture |
| ScrapeBrands.ScrapeRows | scripts/scrape_brands.py:452-500 | one output row per sheet row, each the `ScrapedRow` of that row and the previous run's row at its index. Corrected (see ## Findings): this uses GenericUrl, not GenericUrlAsWritten. |
| ScrapeBrands.IncompleteSpec | scripts/scrape_brands.py:415-422 | a brand with rows is complete exactly when Description and an http Picture are each filled in at least seven rows in ten |
| ScrapeBrands.SelectBrands | scripts/scrape_brands.py:384-426 | a brand is chosen exactly when it has a scrape URL, no fetched catalog, is the wanted brand if one is named, and is incomplete under `--only-incomplete` |
| ScrapeBrands.ScrapeBrand | scripts/scrape_brands.py:431-505 | no sheet writes nothing; otherwise the header is `OutFields` of the sheet's and the rows are its scraped rows. Corrected (see ## Findings): this uses GenericUrl, not GenericUrlAsWritten. |
| ScraperLib.GetUpc | scripts/scraper_lib.py:19-24 | the UPC is empty exactly when no UPC column holds at least five characters once stripped, and otherwise it is the stripped text of such a column |
| ScraperLib.GetName | scripts/scraper_lib.py:27-32 | the name is empty exactly when every name column is blank once stripped, and otherwise it is the stripped text of one of them |
| ScraperLib.RowKeys | scripts/scraper_lib.py:19-32 | one (UPC, name) key per sheet row, in order |
| ScraperLib.RowKeyStripped | scripts/scraper_lib.py:19-32 | the UPC and the name a row gives are already stripped, so a second `strip()` changes neither |
| ScraperLib.BlockProduct | scripts/scraper_lib.py:42-51 | what a parsed block yields is always a Product object |
| ScraperLib.ExtractJsonLdProduct | scripts/scraper_lib.py:35-54 | the result is a Product; there is none exactly when no block yields one, and otherwise some block yields it |
| ScraperLib.ProductFromJsonLd | scripts/scraper_lib.py:87-99 | the fields are found exactly when the name and description are strings and the image has a usable shape, and the title is the `name` field |
| ScraperLib.ImageOfListHead | scripts/scraper_lib.py:95-96 | a list image is read from its first element alone |
| ScraperLib.ImageOfEmpty | scripts/scraper_lib.py:91-98 | a missing image, an empty list and a scalar give the empty image URL |
| ScraperLib.ExtractTitle | scripts/scraper_lib.py:74-76 | the title is single-spaced, has the same words as the title tag's text, and is empty without a title tag |
| Text.SquashSpacesWords | scripts/scraper_lib.py:76 | collapsing whitespace runs to one space keeps the words |
| ScraperLib.ExtractTitleIdempotent | scripts/scraper_lib.py:74-76 | extracting an already-extracted title gives it back |
| ScraperLib.PageFields | scripts/retry_other_sites.py:468-475 | a JSON-LD Product decides the fields; without one the image is og:image, the title is og:title when present and otherwise the extracted title tag, the description is og:description when present and otherwise the meta description, and the title is empty only when og:title and the title tag both are |
| ScraperLib.ImgExt | scripts/scraper_lib.py:119-127 | with `low` the lower-cased URL before its "?": ".png" exactly when `low` holds ".png"; ".webp" exactly when it holds ".webp" but not ".png"; ".gif" exactly when it holds ".gif" but neither; ".jpg" otherwise |
| ScraperLib.ImgExtIgnoresQuery | scripts/scraper_lib.py:119-120 | appending a query string never changes the extension |
| ScraperLib.ProjectRow | scripts/scraper_lib.py:133-138 | a written row has exactly the five CSV fields |
| ScraperLib.WriteCsv | scripts/scraper_lib.py:130-138 | nothing is written exactly when there are no rows; otherwise every row is written, projected, in order, each of the five fields holding the row's cell (or "") |
| ScraperLib.ProjectRowIdempotent | scripts/scraper_lib.py:133-138 | writing a written row again changes nothing |
| ScraperLib.ProjectRowKeeps | scripts/scraper_lib.py:138 | a field present is kept, a missing one is written as "", and a row of exactly the five fields is written unchanged |
| TestFetchOnePerSite.ChooseSample | scripts/test_fetch_one_per_site.py:119-136 | the row loop picks the sample the specification gives: the first row with a URL column value, else the first row with a buildable URL, each with its name cut to 50 characters |
| TestFetchOnePerSite.ColumnWins | scripts/test_fetch_one_per_site.py:124-136 | a URL column value anywhere in the sheet wins over every earlier buildable URL, and the first such row is the sample |
| TestFetchOnePerSite.IntStr | scripts/test_fetch_one_per_site.py:149 | the decimal text of a status code is never empty |
| TestFetchOnePerSite.Classify | scripts/test_fetch_one_per_site.py:142-157 | a fetch is "ok" exactly when it answered 200 with a body, whose size it records; everything else is a "fail" of size 0, detail "404" for a 404, and every detail is at most 80 characters |
| TestFetchOnePerSite.SiteResultOf | scripts/test_fetch_one_per_site.py:111-157 | a site is skipped exactly when it has no sheet or no sample URL; otherwise its result is for the sample URL and is "ok" or "fail" |
| TestFetchOnePerSite.CountStatus | scripts/test_fetch_one_per_site.py:162-164 | a status count never exceeds the number of results |
| TestFetchOnePerSite.CountsAddUp | scripts/test_fetch_one_per_site.py:162-164 | the ok, fail and skip counts add up to the number of sites |
| TestFetchOnePerSite.NoFailCount | scripts/test_fetch_one_per_site.py:163 | the fail count is zero exactly when no site failed |
| TestFetchOnePerSite.RunSites | scripts/test_fetch_one_per_site.py:110-180 | one result per configured site, in order; the counts add up; the exit code is 0 exactly when no site failed, and 1 otherwise |
| ValidateExtracted.TitlesSpec | scripts/validate_extracted.py:54 | a title is in the unique-title set exactly when it is non-empty and the stripped title of some row |
| ValidateExtracted.RightfulSpec | scripts/validate_extracted.py:54-56 | a file is rightful exactly when two of its rows have different non-empty stripped titles |
| ValidateExtracted.SameTitleNotRightful | scripts/validate_extracted.py:50-58 | an empty CSV, or one whose titled rows all share one title, is not rightful |
| ValidateExtracted.ReportOf | scripts/validate_extracted.py:50-65 | the reported rightful flag is the rightful predicate, also for an empty file |
| ValidateExtracted.ReportBounds | scripts/validate_extracted.py:60-64 | rows with good data number no more than rows with a title, a description or an image, each of which is at most the row count; distinct titles are at most the titled rows |
| ValidateExtracted.TitlesCount | scripts/validate_extracted.py:54-60 | there are no more distinct titles than rows with a title |
| ValidateExtracted.AllGood | scripts/validate_extracted.py:19-23 | every row counts as good exactly when every row has a title, a description and an image URL |
| ValidateExtracted.Chosen | scripts/validate_extracted.py:35-37 | with a site name, the files looked at are exactly those with that stem; without one, all files |
| ValidateExtracted.Run | scripts/validate_extracted.py:31-70 | exit code 0 exactly when the folder exists, some file is chosen and every chosen file is rightful; one report per chosen file |
| BrowserCatalog.Limited | scripts/sites/scrape_steiff.py:69-72 | the limited rows are a prefix of the sheet: all rows without the flag, `n` rows (or all) for `n >= 0`, and all but the last `-n` for a negative `n` |
| BrowserCatalog.WordsEnoughSpec | scripts/sites/scrape_steiff.py:59-64 | with at most two significant words the word test passes exactly when all are in the title; all present always passes; no words always passes; otherwise a pass shares a word |
| BrowserCatalog.NameTestSpec | scripts/sites/scrape_steiff.py:49-64 | without the equal-name shortcut, a name with at most two significant words matches exactly the titles holding them all; holding them all always matches; a word match shares a word |
| BrowserCatalog.WordlessNameMatchesAll | scripts/sites/scrape_gigo.py:33-46 | a name with no words (the empty name among them) matches every title under both name tests |
| BrowserCatalog.FillerNameNeedsShortcut | scripts/sites/scrape_steiff.py:56-61 | a name made only of filler words never shares a significant word with a title, so it can match only through the shortcut |
| BrowserCatalog.NoOverlapFails | scripts/sites/scrape_steiff.py:61-64 | a name with significant words that shares none with the title fails the word test |
| BrowserCatalog.Concat | scripts/sites/scrape_steiff.py:87-98 | a link is among the gathered links exactly when some category page holds it |
| BrowserCatalog.ProductUrlsSpec | scripts/sites/scrape_steiff.py:86-106 | the product URLs are strictly increasing (no repeats) and are exactly the query-less forms of links kept from some category page |
| BrowserCatalog.CollectUrls | scripts/sites/scrape_gigo.py:63-76 | the page and link loops followed by the sort compute the product URL list |
| BrowserCatalog.ItemOf | scripts/sites/scrape_steiff.py:107-123 | an item comes exactly from a loaded page whose fields read with a non-empty accepted title; it carries those fields as its title, description and image, and the page's URL |
| BrowserCatalog.BuildCatalog | scripts/sites/scrape_gigo.py:79-101 | the catalog loop keeps, in URL order, the item of each URL that yields one |
| BrowserCatalog.MatchRow | scripts/sites/scrape_gigo.py:106-123 | a row without a UPC gives nothing; otherwise the entry of the first catalog item its name matches, or nothing |
| BrowserCatalog.MatchRows | scripts/sites/scrape_steiff.py:132-156 | the matching loop collects in row order the entry of every row that has one |
| BrowserCatalog.MatchRowsSpec | scripts/sites/scrape_steiff.py:133-151 | every result comes from a row with a UPC and carries the fields of the first catalog item the row's name matches |
| BrowserCatalog.RowResultSpec | scripts/sites/scrape_gigo.py:108-115 | a row has a result exactly when it has a UPC and some catalog item matches its name |
| ScrapeSteiff.ProductLinkOf | scripts/sites/scrape_steiff.py:91-96 | a link holding `steiff.com/en-us/`, a slash-free name, `-` and five digits passes the product-link test |
| ScrapeSteiff.CatalogSpec | scripts/sites/scrape_steiff.py:105-124 | every catalog item has a non-empty title without "search" and comes from a product URL whose page loaded, carrying the URL the page ended on; the items' URL positions increase strictly, so the catalog follows the sorted URL order |
| ScrapeSteiff.Run | scripts/sites/scrape_steiff.py:67-162 | the link, catalog and matching loops compute the Steiff result rows from the limited sheet, the category pages and the page visits |
| ScrapeCazenove.CatalogSpec | scripts/sites/scrape_cazenove.py:112-138 | every catalog item has a title and comes from a product-page URL (five slashes, a dash in its last segment) whose page loaded without "could not be found", carrying the URL the page ended on |
| ScrapeCazenove.Run | scripts/sites/scrape_cazenove.py:76-176 | the link, filter, catalog and matching loops compute the Cazenove result rows |
| ScrapeGigo.CatalogSpec | scripts/sites/scrape_gigo.py:79-98 | every catalog item has a non-empty title without "gigotoys" and carries the product URL it was read from |
| ScrapeGigo.Run | scripts/sites/scrape_gigo.py:49-135 | the link, catalog and matching loops compute the Gigo result rows from the whole sheet |
| ScrapeThinkFun.CatalogSpec | scripts/sites/scrape_thinkfun.py:63-90 | every catalog item has a non-empty title without "shopping basket" and carries the product URL it was read from, a ThinkFun link |
| ScrapeThinkFun.Run | scripts/sites/scrape_thinkfun.py:41-129 | the link, catalog and matching loops compute the ThinkFun result rows from the limited sheet |
| ScrapeColoursCraft.EnoughCount | scripts/sites/scrape_colours_craft.py:36-39 | the 40% bar holds exactly when the word set is non-empty and five times the overlap reaches twice its size |
| ScrapeColoursCraft.EnoughShares | scripts/sites/scrape_colours_craft.py:36-39 | passing the bar needs a common word, and a word set found entirely passes it |
| ScrapeColoursCraft.GoodMatchShares | scripts/sites/scrape_colours_craft.py:27-39 | a good match shares a significant word with the title, and a title holding all the query's significant words is a good match |
| ScrapeColoursCraft.FillerQueryNeverMatches | scripts/sites/scrape_colours_craft.py:27-39 | a query made only of filler words is a good match for no title at all, its own included |
| ScrapeColoursCraft.ImageOf | scripts/sites/scrape_colours_craft.py:67-72 | the featured image's URL when there is one, else the product's `image` |
| ScrapeColoursCraft.ProductUrl | scripts/sites/scrape_colours_craft.py:77 | the store's address followed by a prefix of the suggestion's path that holds no `?`: the whole path, or the part before its first `?` |
| ScrapeColoursCraft.SearchProduct | scripts/sites/scrape_colours_craft.py:48-82 | a result needs a request answered with 200 |
| ScrapeColoursCraft.SearchProductNone | scripts/sites/scrape_colours_craft.py:48-82 | a status other than 200 gives nothing; a 200 gives nothing exactly when no suggestion is a good match |
| ScrapeColoursCraft.SearchProductFirst | scripts/sites/scrape_colours_craft.py:48-82 | a 200 answer gives the data of the first suggestion that is a good match |
| ScrapeColoursCraft.Search | scripts/sites/scrape_colours_craft.py:64-79 | the loop over the suggestions returns what `SearchProduct` specifies |
| ScrapeColoursCraft.MatchRow | scripts/sites/scrape_colours_craft.py:98-108 | a row without a name gives nothing; otherwise its result is the search's data with the row's UPC |
| ScrapeColoursCraft.MatchNext | scripts/sites/scrape_colours_craft.py:98-108 | one pass of the row loop appends the row's result when it has one and keeps the match count equal to the number of results |
| ScrapeColoursCraft.Run | scripts/sites/scrape_colours_craft.py:95-108 | the results are the matched rows' result rows in sheet order, and the match count is their number |
| ScrapeColoursCraft.ResultsFromRows | scripts/sites/scrape_colours_craft.py:98-108 | every result comes from a named sheet row, carries its UPC, and its title is a good match for the name |
| Matching.Normalize | scripts/sites/scrape_colours_craft.py:21-24 | the normalised query and title hold only lower-case letters, digits and single inner spaces (the same normaliser is retry_shopify_sites.py:22-25) |
| Markup.CleanText | scripts/sites/scrape_colours_craft.py:42-45 | the description is the tag-free text with whitespace squashed, at most 500 characters, and whole when shorter (the same cleaning is retry_shopify_sites.py:66-70) |
| ScrapeCrayola.GetAllProducts | scripts/sites/scrape_crayola.py:28-49 | the catalog is the concatenation of the pages of 250 up to the first refusal, failed request, empty page or short page |
| ScrapeCrayola.NormalizeOfNothing | scripts/sites/scrape_crayola.py:22-25 | a missing name normalises to the empty string |
| ScrapeCrayola.HalfShare | scripts/sites/scrape_crayola.py:95-98 | the share is 0 or between 0.5 and 1; it is positive exactly when the word set is non-empty and at least half of it (and at least one word) is found; 1.0 means every word is found |
| ScrapeCrayola.MatchScore | scripts/sites/scrape_crayola.py:86-98 | a score is 0 or at least 0.5, and it is positive exactly when at least half of the sheet name's significant words, and at least one, are significant title words |
| ScrapeCrayola.FillerOnlyNeverMatches | scripts/sites/scrape_crayola.py:86-98 | a name made only of filler words never matches a filler-only title, not even the identical one |
| ScrapeCrayola.FindMatch | scripts/sites/scrape_crayola.py:101-116 | the match is always one of the index's records |
| ScrapeCrayola.FindMatchBarcode | scripts/sites/scrape_crayola.py:103-106 | the first record carrying the (non-empty) UPC as a barcode is the match |
| ScrapeCrayola.FindMatchByScore | scripts/sites/scrape_crayola.py:107-116 | without a barcode hit an empty name matches nothing, and otherwise there is no match exactly when every record scores 0, else the match is the first record of maximal score, which is at least 0.5 |
| ScrapeCrayola.BestPick | scripts/sites/scrape_crayola.py:109-116 | with scores of 0 or at least 0.5, the running best from 0 picks a record unless all score 0, and the pick is the first record of maximal score |
| ScrapeCrayola.FindMatchIn | scripts/sites/scrape_crayola.py:101-116 | the two loops over the index in insertion order return the match `FindMatch` specifies |
| ScrapeCrayola.MatchRow | scripts/sites/scrape_crayola.py:146-161 | a row without a UPC gives nothing; otherwise its result row carries the UPC and the match's title, description, image URL and product URL |
| ScrapeCrayola.Run | scripts/sites/scrape_crayola.py:133-161 | the index is built from the catalog and the results are the matched rows' result rows in sheet order |
| ScrapeCrayola.ResultsFromRows | scripts/sites/scrape_crayola.py:146-161 | every result row has a non-empty UPC from some sheet row and the title, image and URL of an indexed record |
| ScrapeLchaim.Description | scripts/sites/scrape_lchaim.py:55 | the description names the department, followed by "product by" and the brand unless the brand is "Undefined" |
| ScrapeLchaim.UpcMapSpec | scripts/sites/scrape_lchaim.py:49-58 | a UPC is a catalog key exactly when it is non-empty and some listed item has it; it gives the data of the last such item, whose product page is the shop's |
| ScrapeLchaim.FetchCatalog | scripts/sites/scrape_lchaim.py:20-60 | an answer other than 200 gives an empty catalog, otherwise the map the item loop builds |
| ScrapeLchaim.JoinRows | scripts/sites/scrape_lchaim.py:74-95 | one result per sheet row whose UPC is in the catalog, in sheet order, and the match count is their number |
| ScrapeLchaim.JoinNext | scripts/sites/scrape_lchaim.py:77-87 | one pass of the row loop appends the row's catalog entry when its UPC is non-empty and known, and keeps the match count equal to the number of results |
| ScrapeLchaim.JoinSpec | scripts/sites/scrape_lchaim.py:77-87 | every result is the catalog's data under a non-empty UPC taken from some sheet row, and when every row's UPC is known every row has its result |
| ScrapeLchaim.PngFallbackIsDead | scripts/sites/scrape_lchaim.py:88-92 | the ".png" fallback never applies, since the image extension is never empty or "." |
| Markup.StripTagsChars | scripts/retry_shopify_sites.py:69 | removing tags only leaves spaces and characters of the input |
| Markup.StripTagsNoTag | scripts/retry_shopify_sites.py:69 | no tag is left after removing tags |
| Markup.StripTagsIdle | scripts/retry_shopify_sites.py:69 | text without tags is unchanged |
| Markup.StripTagsIdempotent | scripts/retry_shopify_sites.py:69 | removing tags twice is removing them once |
| Text.StripSlice | scripts/scraper_lib.py:21 | `strip()` keeps one slice of the text, with only whitespace outside it and none at its edges |
| Text.StripIdempotent | scripts/scraper_lib.py:21 | stripping twice is stripping once |
| Text.StripOfNoEdge | scripts/scraper_lib.py:21 | text without edge whitespace is its own `strip()` |
| Text.SquashSpacesShape | scripts/scraper_lib.py:76 | squashing whitespace runs and stripping yields single-spaced text |
| Text.SquashSpacesIdle | scripts/scraper_lib.py:76 | single-spaced text is its own squashed form |
| Text.NormWsProperties | scripts/extract_product_data.py:35 | joining the split words with spaces is single-spaced and a fixed point of itself |
| Text.WordsOfJoin | scripts/retry_other_sites.py:86 | splitting the space-joined words gives the words back |
| Text.JoinPrefix | scripts/retry_other_sites.py:86 | joining the first words gives a prefix of joining them all |
| Text.NatText | scripts/test_fetch_one_per_site.py:149 | the decimal text of a number has no leading zeros and reads back as the number |
| Matching.NormalizeIdempotent | scripts/retry_shopify_sites.py:22-25 | normalising a normalised name changes nothing |
| Matching.NormalizeDel | scripts/sites/scrape_cazenove.py:54-55 | the deleting normaliser leaves only lower-case letters, digits and spaces, none at the ends |
| Matching.NormalizersDiffer | scripts/sites/scrape_cazenove.py:54-55 | a hyphen joins two words under the deleting normaliser and separates them under the replacing one |
| Matching.NormalizeDelIdle | scripts/sites/scrape_gigo.py:29-30 | a lower-case text of kept characters with no space at either end is its own deleting normalisation |
| Matching.NormalizeDelKeepsRuns | scripts/sites/scrape_gigo.py:29-30 | the deleting normaliser keeps inner runs of spaces: two normalised words with any run of spaces between them come out unchanged |
| Matching.Significant | scripts/retry_shopify_sites.py:111-114 | the significant words are the words minus the filler, or all the words when that leaves none; they are empty only for an empty name |
| Matching.RatioBounds | scripts/retry_shopify_sites.py:120 | an overlap share lies between 0 and 1, and is 1 exactly when every word is matched |
| Matching.RatioCompare | scripts/sites/scrape_colours_craft.py:39 | a share reaches a fraction exactly when the cross-multiplied counts do |
| Matching.FirstIndex | scripts/retry_shopify_sites.py:131-133 | the index found passes the test and none before it does; there is none exactly when no item passes |
| Matching.FirstBy | scripts/retry_shopify_sites.py:131-133 | the loop returning at the first hit finds the index `FirstIndex` specifies |
| Matching.ArgMaxIsFirstMax | scripts/retry_shopify_sites.py:135-141 | the running best with strict improvement is the first item of maximal score; there is none exactly when no item beats the starting floor |
| Matching.BestBy | scripts/retry_shopify_sites.py:135-141 | the scoring loop leaves the running best and its score, the floor when there is none |
| Matching.GatherSpec | scripts/sites/scrape_crayola.py:139-161 | every collected result comes from a distinct row, in row order, and every row yields one when each has a result |
| Matching.GatherStep | scripts/sites/scrape_crayola.py:146-161 | one more row appends its result, if any, at the end |
| Paging.PagesShape | scripts/retry_shopify_sites.py:28-45 | the items kept are those of the first answers, each a non-empty page, all but the last full, and the loop stopped for a reason: no more answers, a short page or a refusal |
| Paging.ShortPageEnds | scripts/retry_shopify_sites.py:42-43 | a page shorter than the page size is the last one read |
| Paging.RefusalEnds | scripts/retry_shopify_sites.py:35-36 | a refusal ends the download with nothing more read |
| Paging.Paginate | scripts/retry_shopify_sites.py:29-45 | the paging loop returns exactly the items `Pages` specifies |
| Files.Sanitize | scripts/fetch_pages.py:220 | the sanitised name has the same length and only word characters, dots and hyphens, every other character turned into "_" |
| Files.SanitizeIdle | scripts/fetch_pages.py:220 | a name of word characters, dots and hyphens is left as it is |
| Files.SanitizeIdempotent | scripts/fetch_pages.py:220 | sanitising twice is sanitising once |
| Files.UrlPath | scripts/fill_and_download.py:93 | a URL's path holds no query or fragment separator, and for a scheme with parameters its last segment holds no `;` |
| Files.CutParams | scripts/fill_and_download.py:93 | `_splitparams`: a prefix of the path whose last segment holds no `;`, and the path itself when its last segment has none |
| Files.CutParamsOfSegment | scripts/fill_and_download.py:93 | `dir/seg;params` loses `;params` when neither `seg` nor `params` holds a `/` |
| Files.BaseName | scripts/fill_and_download.py:95 | the last path component holds no "/" |
| Files.StemSuffix | scripts/fill_and_download.py:95 | a name is its stem followed by its suffix, a suffix being a dot and at least one more character with no further dot, after a non-empty stem |
| Files.Pad4 | scripts/fill_and_download.py:98 | the padded number is at least four digits that read back as the number |
| Files.FirstReusable | scripts/fill_and_download.py:111-113 | a reusable image name is found exactly when the folder holds one, and it is in the folder |
| Files.ReusableLeastIsUnique | scripts/fill_and_download.py:111-113 | the least reusable name is unique, so the sorted listing picks a determined file |
| Files.Numbered | scripts/fill_and_download.py:118-119 | a numbered name starts with the base and "_" and ends in ".jpg" |
| Files.NumberedInjective | scripts/fill_and_download.py:118-119 | different numbers give different names |
| Files.FreeNumber | scripts/fill_and_download.py:117-119 | the counting loop stops at the first number from 2 whose name the folder does not hold |
| Url.StripQueryFragment | scripts/download_images.py:49 | the URL left holds no "?" and no "#" |
| Url.QuotePlusChars | scripts/discover_urls.py:176 | a quoted query holds only unreserved characters, "+" and "%" |
| Url.QuotePlusUnreserved | scripts/discover_urls.py:176 | text of unreserved characters is left unchanged |
| Url.QuotePlusAppend | scripts/discover_urls.py:176 | quoting goes character by character, so a concatenation is quoted piece by piece |
| Url.QuotePlusSpace | scripts/discover_urls.py:176 | every space becomes "+", whatever text surrounds it |
| Order.LessTotal | scripts/sites/scrape_cazenove.py:118 | two different strings are ordered one way or the other |
| Order.LessTransitive | scripts/sites/scrape_cazenove.py:118 | string order is transitive |
| Order.SortedSetSpec | scripts/sites/scrape_cazenove.py:118 | the sorted set is strictly increasing and holds exactly the collected URLs |
| Order.IncreasingUnique | scripts/sites/scrape_cazenove.py:118 | only one increasing list holds a given set, so the sorted order is determined |
| Json.FirstProduct | scripts/scraper_lib.py:44-47 | the item found is the first element that is a Product, and there is none exactly when no element is |
| Json.StrOrEmpty | scripts/audit_html_pages.py:80-81 | a string field reads as itself and a missing one as "" |
| Sheet.FirstFilled | scripts/analyze_site.py:56-57 | the chained `or` gives "" exactly when every column is empty, and otherwise one of the columns' values |
| Sheet.FirstStripped | scripts/scraper_lib.py:20-24 | the first column whose stripped value is long enough gives it, and "" means no column's is |
| Sheet.FirstOfIsFirst | scripts/test_fetch_one_per_site.py:124-128 | what is found is the value of some row, before which no row gives one |
| Sheet.FirstOfNone | scripts/test_fetch_one_per_site.py:124-133 | nothing is found exactly when no row gives a value |
| Sheet.CountSpec | scripts/test_fetch_one_per_site.py:162-164 | a count equals the number of rows exactly when every row counts, and is 0 exactly when none does |
| Sheet.CountMono | scripts/test_fetch_one_per_site.py:162-164 | a weaker test counts at least as many rows |
| Slugs.HyphenateShape | scripts/test_fetch_one_per_site.py:53-54 | the hyphenated text holds only word characters and single hyphens, and is empty exactly when nothing was kept |
| Slugs.HyphenateIdle | scripts/test_fetch_one_per_site.py:53-54 | a text of slug characters with single hyphens is its own hyphenation |
| Slugs.LowerSlugChars | scripts/test_fetch_one_per_site.py:54 | lower-casing keeps single hyphens and yields slug characters |
| Slugs.TakeSlugChars | scripts/test_fetch_one_per_site.py:54 | cutting a slug at 80 characters keeps both shape facts |
| Dicts.LookupFinds | scripts/retry_shopify_sites.py:131 | a key is present exactly when some pair carries it, and then the first such pair gives its value |
| Dicts.PutLookup | scripts/retry_shopify_sites.py:90 | after `d[k] = v`, `k` gives `v` and every other key what it gave before |
| Dicts.PutOrder | scripts/retry_shopify_sites.py:90 | assignment keeps every key in place, replacing the value of a present key and appending a new one |
| Dicts.PutDistinct | scripts/retry_shopify_sites.py:90 | assignment keeps the keys distinct |
| Dicts.KeysOfPut | scripts/retry_shopify_sites.py:90 | the keys after assignment are the old keys and the new one |
| Dicts.PutEachLookup | scripts/retry_shopify_sites.py:50-91 | after the filling loop a key is absent exactly when no item has it, and otherwise gives the last item with it |
| Dicts.PutEachShape | scripts/retry_shopify_sites.py:50-91 | the filled dictionary has distinct keys, each pair an item under its own key |

## Left out

- DeepInvestigate: the Shopify products.json, collections and WordPress probes (deep_investigate.py:102-161) are given as their `found` flags; the JSON and HTML parsing behind them, and the fields they print, are not modelled.
- DeepInvestigate.SitemapOf: the recursion carries a fuel bound; the script has none and ends a cycle of index sitemaps only through Python's recursion limit, caught by its `try`.
- FetchPages: the `--site`/`--sites` selection and its exit on an unknown site, the request delay and the timeout value are not modelled; `--skip-in-progress` is always on, as its default `True` cannot be switched off.
- FillAndDownload: `process_atiko` and `process_generic` (fill_and_download.py:125-155, 809-838) write the sheet unchanged. Their only other effect is downloading images, which is I/O, so they are covered only through the image-name functions and the run plan.
- FillAndDownload: `download_image`, the sleeps, the folder creation and the CSV writing are I/O. The model decides which rows are written, and with which content.
- FillAndDownload: the weight column (grams converted to pounds by a float division and `round`) is not modelled, because it is floating point.
- FillAndDownload: `fetch_chazak_product` (fill_and_download.py:158-225) parses HTML. It is a parameter, `fetch`, that gives a description and the dimensions for a handle.
- FillAndDownload: the YAML configuration is given as a list of (id, scrape_url) pairs, and the fetched catalog files as a set of ids.
- FillAndDownload.FindProductSpec: Aurora's second SKU lookup (`number.lstrip("0")`, fill_and_download.py:618) is not lower-cased, and the model keeps that. The contract still speaks only of the first lookup.
- GetAllProductData: the browser (Playwright), its waits, `product_links_from_page` (a JavaScript query in the page) and the loading of each page form a parameter, `web`, that maps URLs to listed links and to pages.
- GetAllProductData: the `--site` check, the sheet lookup, the Playwright import error and the CSV writing are not modelled; the image download is I/O.
- GetAllProductData.ProcessRow: the contract speaks only of the product id and the no-query case. The other paths (the search, the refusal page and the generic test) are stated by the lemmas about the whole loop, SaveRow and Unrefused.
- ProbeSiteStructure: `probe_site` and `main` (probe_site_structure.py:133-245) load pages in a browser, save them and print a report. They are not modelled beyond the URLs and the report they are built from.
- ProbeSiteStructure.ReportHtml: the page's title, og tags and product links are given as parsed fields of the page. The regular expressions that find them are not modelled.
- ProbeUrlPattern: the HTTP `fetch` is a parameter, a function from URL to status and body. The delay, the printed summary and the YAML writing are not modelled; `--site` selects the sites given.
- Retry: the browser, its navigation, its waits and the JavaScript link queries form a parameter, `web`. It holds the landing of each search, the page of each link and the autocomplete items of each query; a navigation that raised is a missing key.
- Retry: the image downloads (`_save_image`, `_save_img`), the sleeps and the progress output are I/O. The CSV writing is ScraperLib.WriteCsv on the rows the model computes.
- Network, browser and files in general: every HTTP request, Playwright navigation, wait, sleep, header, image download, `mkdir`, CSV read or write and file-existence probe is outside the model. Fetchers and browsers become parameters (maps or functions from a URL or query to a reply); a folder's contents become a `set<string>` of names; CSV rows become maps from column to cell.
- HTML, regular expressions and JSON: BeautifulSoup, `re` over HTML and `json.loads` are not modelled. Parsed pages, ld+json blocks (as `Option<Json>`, with `None` for a block that failed to parse) and regex captures are given as inputs. Only the character-level string functions (normalisers, slugs, sanitisers, tag stripping) are modelled directly.
- `html.unescape` of HTML entities is not modelled: titles and descriptions are carried through as they are.
- Letters and digits are ASCII: Python's Unicode `\w`, `str.lower`, `str.isdigit` and `str.isalnum` are modelled on the ASCII letters and digits, so a non-ASCII letter is neither a word character nor lower-cased. Whitespace is Python's full `str.isspace` set, and URL quoting encodes every character as UTF-8.
- Shopify catalogs and search suggestions are typed records, with a missing or null field read as empty. A JSON value of an unexpected type (which would make a script raise) is not modelled.
- Console output, progress counters, the markdown and text reports (deep_analyze.py:423-472, analyze_site.py:242-313) and the written test-results file of test_fetch_one_per_site.py are not modelled.
- The order of `sorted()` over directory listings and over YAML site lists is taken as given: sites and files arrive as sequences in the order the script would visit them.
- run_scrapers.py, run_all_sites.py and discover_all_sites.py orchestrate processes; download_sheets.py, fix_missing_images.py and fix_playkidiz_images.py are pure I/O drivers. They are not part of this model.
- Helpers copied verbatim between scripts (`normalize`, `slug`, `_row_val`, `get_row_url`, `build_name_index`/`product_to_info`, the retry extractors) are defined once and shared; the Model table cites one copy of each.
- DiscoverUrls: `first_product_link_from_html` (discover_urls.py:133-136) is defined but never called, so it is not modelled.
- RetryShopifySites: `main`'s site list, the sleeps, `process_site`'s image downloads and its CSV writing are not modelled. The matching is modelled from the loaded catalog, the sheet rows and the earlier results.
- RetryShopifySites.GetAllShopifyProducts: the script has no `try` around the request or `r.json()`, so a request that raises or a body that is not JSON ends the whole run, and the sites after it are never processed. The model treats such a reply as `Refused`, which ends only that catalog's download.
- RetrySamvixApi.FetchAllProducts: likewise, a request that raises or a body that is not JSON ends the script. The model treats it as `Refused` and goes on to match with the pages read so far.
- FillAndDownload.FillSpec: each sheet is written by `csv.DictWriter` with the reader's field names, which raises `ValueError` when a filled row has a `Picture` or `Description` key the sheet lacks. The model writes the row with the column added. FillRows, ProcessBrand and the per-brand fills inherit this.
- ScrapeBrands.RowImageNamesDistinct: distinctness holds only when image 0's name is not itself a numbered `<base>_<n>.jpg`. ReusedSecondNameCollides shows a folder in which image 0 reuses `<base>_2.jpg`.
- ScrapeCrayola: the `--limit` argument and the header-only CSV written when nothing matched (scrape_crayola.py:168-171) are not modelled.
- ScrapeThinkFun: the header-only CSV written when nothing matched (scrape_thinkfun.py:123-126) is not modelled.
- ScrapeColoursCraft: `clean_html` unescapes before it cuts at 500 characters; without `unescape` the model cuts the tag-free, squashed text. A request that raises is a failed reply.
- ScrapeLchaim: the regular expression over the `data-*` attributes (scrape_lchaim.py:33-47) is given as the list of parsed items; the preliminary `GET /Shop` is not modelled.
- TestFetchOnePerSite: `--site`, `--delay`, the sample file written for an ok fetch, and the YAML loading are not modelled. `fetch_one` is the parameter `fetch`, with status -1 for a request that raised.

## Findings

| source | as written | input that shows it | evidently intended | confidence | as-written member | corrected member |
|---|---|---|---|---|---|---|
| scripts/get_all_product_data.py:95-104 | the host label taken from a base URL without a host is "", and `"" in title.lower()` always holds, so every title under 50 characters counts as generic | base URL "" and the title "Robot" (a new title on a site without a host) | the host test applies only when there is a host label | not executed | GetAllProductData.IsGenericPageAsWritten, GetAllProductData.EmptyBaseRefusesProducts | GetAllProductData.IsGenericPage |
| scripts/fetch_chunk.py:52-60 | the 429 branch tests the truthiness of the response, which is false for an error status, so a 429 ends the download instead of being retried | a first page answered with 429, then full catalog pages | a 429 waits and requests the same page again | not executed | FetchChunk.AsWrittenNeverRetries, FetchChunk.RateLimitLosesCatalog | FetchChunk.RetryingSkipsRateLimits, FetchChunk.FetchShopifyAll |
| scripts/fill_and_download.py:51-72 | a name whose slug is empty reaches the containment stage with the key "", which every title key contains, so it matches the longest title | the name "!!" against a single product titled "abc" | an empty slug matches nothing | not executed | FillAndDownload.FuzzyMatchAsWritten, FillAndDownload.EmptySlugExample | FillAndDownload.FuzzyMatch, FillAndDownload.FuzzyMatchSpec |
| scripts/fill_and_download.py:104-122 | when `{base}.jpg` is not in the folder the function does not return it but falls through to the counter, so the first image of a product is named `{base}_2.jpg` | the Number "144" and an empty image folder give "144_2.jpg" | a product's first image is `{base}.jpg` | not executed | FillAndDownload.ImageFilenameAsWritten, FillAndDownload.FreshNameAsWritten, FillAndDownload.SecondNameExample | FillAndDownload.ImageFilenameForRow |
| scripts/scrape_brands.py:271-274 | the generic adapter builds `{base}/products/{slug}` even when the slug is empty, which is the catalog's listing page | a row whose only name is "!!" | like the other adapters, no URL for an empty slug | not executed | ScrapeBrands.GenericUrlAsWritten, ScrapeBrands.GenericListingExample | ScrapeBrands.GenericUrl, ScrapeBrands.GenericUrlSpec |
| scripts/merge_discovered_urls.py:75-77 | a row without a UPC probes `(upc, "")` = `("", "")`, the key a discovered row with neither UPC nor name sets, so it gets that unrelated URL | a discovered row with blank UPC and name, and a sheet row with no UPC whose name was not discovered | the UPC-only key is probed only for a non-empty UPC, and the blank key never | not executed | MergeDiscoveredUrls.LookupAsWritten, MergeDiscoveredUrls.BlankKeyExample | MergeDiscoveredUrls.LookupUrl, MergeDiscoveredUrls.LookupSound |
