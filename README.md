# kxrim-dev portfolio: the data logic, modelled in Dafny

This project models the parts of the kxrim-dev portfolio site that compute
something. The rest of the site is presentation.

- **Repository list** (`GithubApi`, `github_api.dfy`). The owner's GitHub
  repositories are fetched and fall back to a static snapshot when the
  request fails. They are then organised as the curated featured
  repositories, in the curated order, followed by every other non-archived
  repository, most recently pushed first. A second view maps each
  repository to its name and description. A missing or empty description
  becomes "No description available".
- **Stable sort** (`StableSort`, `stable_sort.dfy`). Both sorts of the
  source model JavaScript's `Array.prototype.sort`, which is stable. The
  model is a stable insertion sort, descending by an integer key.
- **Local analytics** (`Analytics`, `analytics.dfy`).
  - `localStorage` is a `map<string, string>` field of the class
    `AnalyticsStore`.
  - A visitor id is created once and then reused.
  - The stored analytics record is read and falls back to a default record.
  - Each page view raises exactly one counter and sets the last visit.
  - The summary gives total views, distinct pages and the ten most-viewed
    pages.
- **Visitor comments** (`Reviews`, `reviews.dfy`).
  - GitHub issues become comments. The author and content come from the
    issue's JSON body when it parses, and from the issue's own user and raw
    body when it does not.
  - The page state is a class with three fields: the comment list, the
    loading flag and the error.
  - The page shows a "Unique Visitors" count of distinct author usernames.
- **Translations** (`Language`, `language.dfy`). There are two dictionaries,
  English and German, with the same 26 keys. The current language starts as
  English. The lookup `t` falls back to the key itself. `useLanguage`
  fails outside a provider.
- **Greeting** (`Hero`, `hero.dfy`). The hour of the day picks the morning,
  afternoon or evening translation key.
- **Code window** (`CodeWindow`, `code_window.dfy`).
  - A counter advances modulo 17, which is the 15 code lines plus two.
  - The counter decides which lines are lit and which line has the cursor.
  - A chain of substring tests colours each line.

Outside inputs become parameters:

- Each network request becomes the outcome it came back with: a network
  error, or a reply with an `ok` flag and an optional decoded body.
- `JSON.parse` and `JSON.stringify` become functions given to the model.
  For analytics, the only assumptions about them are the laws in
  `Analytics.CodecLaws`.
- The clock becomes an integer `now` or `hour`.
- The random part of a new visitor id becomes a string parameter
  `randomPart`.

## Model

| member | source | states |
|---|---|---|
| GithubApi.Delivered | src/utils/github-api.ts:44-49 | A network error, a non-ok status and a body that does not decode each rule out a delivered list. |
| GithubApi.GetFallbackRepos | src/utils/github-api.ts:7-17 | The snapshot's list when the snapshot request succeeds with an ok status and a body that decodes. The empty list on every other outcome. |
| GithubApi.FetchRepositories | src/utils/github-api.ts:26-55 | The API's list when the API reply is ok and decodes. Otherwise, whatever the fallback yields: the snapshot, or the empty list. No outcome is an error. |
| GithubApi.RepoMap | src/utils/github-api.ts:64 | Every name in the lookup maps to a repository carrying that name. |
| GithubApi.RepoMapKeys | src/utils/github-api.ts:64 | A name is in the lookup exactly when some fetched repository has it. |
| GithubApi.RepoMapLast | src/utils/github-api.ts:64 | For a name in the lookup, the value is a fetched repository with no later repository of the same name. |
| GithubApi.RepoMapIsLastWithName | src/utils/github-api.ts:64 | A name is in the lookup exactly when some fetched repository has it. The value is the LAST repository with that name, because a later Map entry overwrites an earlier one. |
| GithubApi.Featured | src/utils/github-api.ts:66-68 | At most one repository per featured name. Each result is the lookup of some featured name that was found. |
| GithubApi.FeaturedAppend | src/utils/github-api.ts:66-68 | Projecting a concatenation of name lists gives the concatenation of the projections, so the caller's order is kept. |
| GithubApi.FeaturedOne | src/utils/github-api.ts:66-68 | One name yields its repository when found and nothing when not found. |
| GithubApi.FeaturedNoLookup | src/utils/github-api.ts:66-68 | Nothing is featured when no repository was fetched. |
| GithubApi.FeaturedContainsMatch | src/utils/github-api.ts:66-68 | Every featured name that is found contributes its repository. |
| GithubApi.FeaturedLength | src/utils/github-api.ts:66-68 | The number of featured repositories equals the number of featured names that match a fetched repository. |
| GithubApi.Eligible | src/utils/github-api.ts:71 | An archived repository and a repository whose name is featured are both excluded. |
| GithubApi.KeepRemaining | src/utils/github-api.ts:70-71 | A repository is kept exactly when it was fetched, is not archived and its name is not featured. Each eligible repository keeps all its copies and every other repository has none, so the result is exactly the eligible part of the input as a multiset. |
| GithubApi.KeepRemainingCons | src/utils/github-api.ts:70-71 | The first repository is kept or dropped on its own, in front of the filtered rest. |
| GithubApi.KeepRemainingAppend | src/utils/github-api.ts:70-71 | Filtering a concatenation gives the concatenation of the filtered parts, so the filter keeps the input order. |
| GithubApi.KeepRemainingOne | src/utils/github-api.ts:70-71 | One repository is kept exactly when it is eligible. |
| GithubApi.KeepRemainingWithKey | src/utils/github-api.ts:70-72 | The kept repositories with one push time are the eligible ones among the fetched repositories with that push time, in fetch order. |
| GithubApi.Remaining | src/utils/github-api.ts:70-72 | Holds the same multiset as the filtered list and is ordered by push time, most recent first. |
| GithubApi.Organize | src/utils/github-api.ts:64-74 | The result is the featured list followed by the sorted remaining list. Its length is the sum of their lengths. |
| GithubApi.OrganizeShape | src/utils/github-api.ts:64-74 | After the featured prefix: the eligible repositories as a permutation, sorted by push time descending. For each push time, the repositories with that time are the eligible fetched repositories with that time, in fetch order. The total length is the matched count plus the eligible count. |
| GithubApi.ArchivedOnlyInPrefix | src/utils/github-api.ts:70-74 | No position after the featured prefix holds an archived repository or a featured name. |
| GithubApi.ArchivedFeaturedKept | src/utils/github-api.ts:66-68 | A featured name that is found puts its repository into the prefix even when that repository is archived. |
| GithubApi.FetchOrganizedRepositories | src/utils/github-api.ts:57-79 | The organised API list when the API delivers one. Otherwise, the organised snapshot list when the snapshot is delivered. When both fail, the result is empty. |
| GithubApi.DescriptionOrPlaceholder | src/utils/github-api.ts:91 | A non-empty description is kept. A null or empty description (both falsy) becomes "No description available". The result is never empty. |
| GithubApi.NamesAndDescriptions | src/utils/github-api.ts:89-92 | One entry per repository, in order, with the same name and the description or the placeholder. |
| GithubApi.FetchRepoNamesAndDescriptions | src/utils/github-api.ts:86-96 | The name-and-description entries of the API list when it is delivered, otherwise of the snapshot list when that is delivered, and empty when both fail. One entry per fetched repository. |
| StableSort.Insert | src/utils/github-api.ts:72 | Inserting into a descending list keeps it descending and adds exactly the element, counted as a multiset. |
| StableSort.Sort | src/utils/github-api.ts:72 | The result is a permutation of the input, sorted descending by the key. |
| StableSort.InsertStable | src/utils/github-api.ts:72 | Insertion keeps the relative order of the elements that share a key. |
| StableSort.SortStable | src/utils/github-api.ts:72 | The sort is stable: for every key, the elements with that key appear in input order. |
| StableSort.SortedDescPairs | src/utils/analytics.ts:115 | In a descending list, every earlier element has a key at least as large as every later one. |
| Analytics.Pages | src/utils/analytics.ts:111 | A page is a key exactly when some entry carries it. |
| Analytics.ViewsOf | src/utils/analytics.ts:70 | A page without an entry counts 0, as `pageViews[p] \|\| 0` does for a page that is not a key. With distinct keys, a page with an entry gives that entry's stored count. |
| Analytics.TotalViews | src/utils/analytics.ts:110 | The sum of all counts, which is at least every single count. |
| Analytics.Bump | src/utils/analytics.ts:70 | Adds the page to the keys. The number of entries grows by one exactly when the page is new. |
| Analytics.BumpNewAppends | src/utils/analytics.ts:70 | A page with no entry is appended after all existing entries, with count 1, as a new key goes last in an object's key order. |
| Analytics.BumpKeepsPlaces | src/utils/analytics.ts:70 | Every existing entry keeps its position and its page, and an entry for another page is unchanged. |
| Analytics.BumpViews | src/utils/analytics.ts:70 | The tracked page's count rises by exactly one, a missing entry counting as 0. No other page's count changes. |
| Analytics.BumpAllViews | src/utils/analytics.ts:70 | The same fact, stated for every page at once. |
| Analytics.BumpTotal | src/utils/analytics.ts:70 | One tracked view raises the sum of all counts by exactly one. |
| Analytics.BumpDistinct | src/utils/analytics.ts:70 | Tracking keeps the keys distinct. |
| Analytics.DistinctPagesCount | src/utils/analytics.ts:111 | With distinct keys, the key count equals the number of entries. |
| Analytics.DefaultData | src/utils/analytics.ts:43-48 | No page views, zero unique visitors, and both visits set to the current time. |
| Analytics.Track | src/utils/analytics.ts:67-71 | The page count rises by one and no other count changes. The page joins the keys. `uniqueVisitors` and `firstVisit` are kept. `lastVisit` is the current time. Distinct keys stay distinct. |
| Analytics.LoadAnalytics | src/utils/analytics.ts:33-49 | A missing or empty stored text, or text that does not parse (the `catch`), gives the default record. A parsed record is returned as is. Valid JSON of another shape is returned as a foreign value. |
| Analytics.GetItem | src/utils/analytics.ts:34 | `getItem` gives the stored value exactly when the key is present. |
| Analytics.StoredVisitorId | src/utils/analytics.ts:24-25 | An id is present exactly when the key is stored with a non-empty (truthy) value. |
| Analytics.TrackedStorage | src/utils/analytics.ts:61-83 | The storage after `trackPageView` holds the visitor id that `getVisitorId` returned. No key other than the two the module uses changes. |
| Analytics.EnsureVisitorId | src/utils/analytics.ts:23-30 | A stored id is returned and nothing is written. Otherwise `visitor_` followed by the random part is stored and returned. Afterwards the storage holds the returned id. |
| Analytics.VisitorIdIsStable | src/utils/analytics.ts:23-30 | A second call returns the first call's id and writes nothing, whatever its random part. |
| Analytics.TopPages | src/utils/analytics.ts:113-116 | The result has min(10, number of entries) elements. They are sorted by views descending and drawn from the entries. No entry left out has more views than an entry kept. |
| Analytics.TopPrefixIsTop | src/utils/analytics.ts:115-116 | The first n elements of a sorted permutation of the entries are sorted and drawn from the entries. No entry left out has more views than any of them. |
| Analytics.SummaryOf | src/utils/analytics.ts:108-124 | The total is the sum of the counts. The distinct-page count is the key count. The top pages are exactly `TopPages` of the record: sorted, capped at ten, a sub-multiset of the entries, and no entry left out has more views than an entry kept. Both visit times are copied. |
| Analytics.SummaryOfLoaded | src/utils/analytics.ts:108-124 | A summary exists exactly when the stored value is a record. On a foreign value, reading `pageViews` throws. |
| Analytics.SummaryAfterTrack | src/utils/analytics.ts:70-111 | After one tracked view the total is one higher. The distinct-page count rises by one exactly when the page is new. The first visit is kept and the last visit is the current time. |
| Analytics.DefaultSummary | src/utils/analytics.ts:43-48 | The default record summarises to zero views, no pages, and the current time twice. |
| Analytics.AnalyticsStore.constructor | src/utils/analytics.ts:14-15 | The store starts from the given storage and codec. |
| Analytics.AnalyticsStore.GetAnalyticsData | src/utils/analytics.ts:33-49 | With no stored text, or an empty one, the default record. Text that fails to parse also gives the default record. A record that parses is returned as parsed. The value is foreign exactly when the stored text is valid JSON of another shape. |
| Analytics.AnalyticsStore.GetAnalyticsSummary | src/utils/analytics.ts:101-125 | With no stored text, or an empty one, the summary is zero views and no pages. A loaded record gives its summary. A summary exists exactly when a record was loaded. |
| Analytics.AnalyticsStore.GetVisitorId | src/utils/analytics.ts:23-30 | Returns the stored id and leaves the storage unchanged, or stores and returns a fresh `visitor_` id. Afterwards the storage holds the returned id. |
| Analytics.AnalyticsStore.TrackPageView | src/utils/analytics.ts:61-83 | Afterwards a visitor id is stored. When the analytics value was a record or nothing usable, every later read yields the tracked record. A foreign value is left as it was, because the thrown error is caught. No other storage key changes. |
| Reviews.IdString | src/components/sections/Reviews.tsx:50 | The decimal text of an issue id is non-empty and consists of digits. |
| Reviews.IdStringRoundTrip | src/components/sections/Reviews.tsx:50 | The decimal text reads back as the id. |
| Reviews.IdStringInjective | src/components/sections/Reviews.tsx:50 | Different issue ids give different comment ids, which the page uses as React keys. |
| Reviews.UserAuthor | src/components/sections/Reviews.tsx:57-62 | The fallback author's name and username are the login. Its avatar and profile are the user's URLs. |
| Reviews.ParsedBody | src/components/sections/Reviews.tsx:48 | A null body gives nothing. A body with text gives what the parser makes of it. |
| Reviews.ToComment | src/components/sections/Reviews.tsx:46-67 | The id is the decimal issue id and the timestamp is the creation time. A body that parses gives its author and content. Otherwise the author is the issue's user and the content is the raw body, null included. |
| Reviews.ToComments | src/components/sections/Reviews.tsx:46-68 | One comment per issue, in the issues' order. |
| Reviews.CommentIdsDistinct | src/components/sections/Reviews.tsx:46-68 | Comments of issues with distinct ids have distinct ids. |
| Reviews.Usernames | src/components/sections/Reviews.tsx:133 | A username is in the set exactly when some comment's author has it. |
| Reviews.UniqueVisitorCount | src/components/sections/Reviews.tsx:133 | Never more than the number of comments, and at least one when there is a comment. |
| Reviews.UsernamesBound | src/components/sections/Reviews.tsx:133 | The inductive proof behind `UniqueVisitorCount`'s two bounds, on the username set itself. |
| Reviews.DistinctUsernamesCount | src/components/sections/Reviews.tsx:133 | With pairwise distinct usernames, the count equals the number of comments. |
| Reviews.SharedUsernameCount | src/components/sections/Reviews.tsx:133 | Two comments by one username make the count smaller than the number of comments. |
| Reviews.UniqueVisitorsAllDistinct | src/components/sections/Reviews.tsx:133 | The count equals the number of comments exactly when no two comments share a username. |
| Reviews.Delivered | src/components/sections/Reviews.tsx:44-45 | A network error, a non-ok status and a body that does not decode each rule out a delivered issue list. |
| Reviews.CommentsPage.constructor | src/components/sections/Reviews.tsx:18-20 | Starts with no comments, loading, and no error. |
| Reviews.CommentsPage.BeginLoad | src/components/sections/Reviews.tsx:31-32 | Sets loading and clears the error. |
| Reviews.CommentsPage.FinishLoad | src/components/sections/Reviews.tsx:44-79 | Loading ends. A delivered issue list becomes the comments. Every failure empties the comments and sets "Failed to load comments. Please refresh the page.". |
| Reviews.CommentsPage.LoadComments | src/components/sections/Reviews.tsx:30-80 | After a load, loading is off. On success: the mapped comments and no error. On failure: no comments and the error message. |
| Reviews.CommentsPage.TotalComments | src/components/sections/Reviews.tsx:128 | The "Total Comments" figure is 0 exactly when there are no comments. |
| Reviews.CommentsPage.UniqueVisitors | src/components/sections/Reviews.tsx:128-133 | The "Unique Visitors" figure never exceeds "Total Comments". |
| Language.Translations | src/contexts/LanguageContext.tsx:114 | Both languages' dictionaries have the English key set. |
| Language.T | src/contexts/LanguageContext.tsx:113-116 | A present, non-empty entry is returned. A missing or empty entry gives the key itself. |
| Language.SameKeys | src/contexts/LanguageContext.tsx:21-104 | Both dictionaries define the same keys. |
| Language.NoEmptyEntries | src/contexts/LanguageContext.tsx:21-104 | No entry is empty, so `t` returns the entry for every defined key. |
| Language.ErrorKeyIsMissing | src/contexts/LanguageContext.tsx:21-104 | "projects.error" is in neither dictionary. |
| Language.AllProjectsKeyIsMissing | src/contexts/LanguageContext.tsx:21-104 | "projects.allProjects" is in neither dictionary. |
| Language.MissingKeysFallBack | src/contexts/LanguageContext.tsx:113-116 | The two keys that pages use but no dictionary defines come back unchanged in both languages. |
| Language.UseLanguage | src/contexts/LanguageContext.tsx:125-131 | Succeeds with the provided value exactly when there is a provider. Otherwise fails with "useLanguage must be used within a LanguageProvider". |
| Language.LanguageProvider.constructor | src/contexts/LanguageContext.tsx:111 | The initial language is English. |
| Language.LanguageProvider.SetLanguage | src/contexts/LanguageContext.tsx:111 | The language becomes the one passed. |
| Language.LanguageProvider.Translate | src/contexts/LanguageContext.tsx:113-116 | A defined key gives its non-empty entry in the current language. Any other key gives the key itself. |
| Hero.GreetingKey | src/components/sections/Hero.tsx:13-18 | Before 12: the morning key. From 12 to before 18: the afternoon key. From 18 on: the evening key. |
| Hero.Greeting | src/components/sections/Hero.tsx:13-18 | The greeting is the dictionary entry for the chosen key, and it is never empty. |
| Hero.GreetingKeyExactlyOne | src/components/sections/Hero.tsx:14-17 | Each key is chosen exactly for its hour range. |
| Hero.GreetingIsTranslated | src/components/sections/Hero.tsx:15-17 | All three keys exist in both languages, so the greeting is the translation and never the raw key. |
| Hero.EnglishGreetings | src/components/sections/Hero.tsx:15-17 | In English the greetings are "Good morning", "Good afternoon" and "Good evening". |
| CodeWindow.PeriodIs17 | src/components/ui/CodeWindow.tsx:7-27 | There are 15 code lines, so the counter's modulus is 17. |
| CodeWindow.NextLine | src/components/ui/CodeWindow.tsx:27 | The next value stays below 17. It goes up by one and wraps to 0 after 16. |
| CodeWindow.LineAfter | src/components/ui/CodeWindow.tsx:26-28 | The counter after any number of ticks stays below 17. |
| CodeWindow.LineAfterIsModulo | src/components/ui/CodeWindow.tsx:26-28 | After n ticks from 0, the counter is n modulo 17. |
| CodeWindow.Ticker.constructor | src/components/ui/CodeWindow.tsx:6 | The counter starts at 0. |
| CodeWindow.Ticker.Tick | src/components/ui/CodeWindow.tsx:27 | One interval tick sets the counter to the old value plus one, modulo 17, and keeps it in range. |
| CodeWindow.IsLit | src/components/ui/CodeWindow.tsx:51 | The first line is always lit. |
| CodeWindow.HasCursor | src/components/ui/CodeWindow.tsx:70 | The cursor line is always lit. |
| CodeWindow.CursorLines | src/components/ui/CodeWindow.tsx:70 | A line carries the cursor exactly when its index equals the counter. |
| CodeWindow.CursorOnAtMostOneLine | src/components/ui/CodeWindow.tsx:70 | At most one line has the cursor, and none while the counter is past the last line. |
| CodeWindow.AllLitPastTheEnd | src/components/ui/CodeWindow.tsx:51-70 | In the two steps past the last line, every line is lit and none has the cursor. |
| CodeWindow.LitIsPrefix | src/components/ui/CodeWindow.tsx:51 | If a line is lit, so is every earlier line. |
| CodeWindow.Contains | src/components/ui/CodeWindow.tsx:62-65 | `includes`: a pattern occurs at some position of the line, so it is never longer than the line. |
| CodeWindow.ContainsChar | src/components/ui/CodeWindow.tsx:63 | A one-character `includes` holds exactly when the character occurs in the line. |
| CodeWindow.MissingCharExcludes | src/components/ui/CodeWindow.tsx:62-65 | A pattern containing a character absent from the line is not included in it. |
| CodeWindow.IsKeywordLine | src/components/ui/CodeWindow.tsx:62 | The keyword test holds only on lines at least as long as the shortest keyword, 5 characters. |
| CodeWindow.HasQuote | src/components/ui/CodeWindow.tsx:63 | The quote test holds exactly when the line has a single or a double quote. |
| CodeWindow.ThisNeedsDot | src/components/ui/CodeWindow.tsx:64 | A line containing `this.` has a dot. |
| CodeWindow.HasThis | src/components/ui/CodeWindow.tsx:64 | The `this.` test holds only on lines with a dot and at least 5 characters. |
| CodeWindow.HasBracket | src/components/ui/CodeWindow.tsx:65 | The bracket test holds exactly when the line has `{`, `}`, `[` or `]`. |
| CodeWindow.Classify | src/components/ui/CodeWindow.tsx:62-66 | Each colour holds exactly when its own test passes and every earlier test fails. Order: keyword purple, quote green, `this.` cyan, bracket yellow, otherwise white. |
| CodeWindow.KeywordWins | src/components/ui/CodeWindow.tsx:62 | A line with `class`, `constructor` or `async` is purple whatever else it contains. |
| CodeWindow.QuoteBeatsThisBeatsBracket | src/components/ui/CodeWindow.tsx:63-65 | Without a keyword, a quote wins over `this.`, which wins over a bracket. |
| CodeWindow.ClassLineColour | src/components/ui/CodeWindow.tsx:8 | The line "class Developer {" is purple. |
| CodeWindow.ConstructorLineColour | src/components/ui/CodeWindow.tsx:9 | The line "constructor() {" is purple. |
| CodeWindow.AsyncLineColour | src/components/ui/CodeWindow.tsx:19 | The line "async buildFuture() {" is purple. |
| CodeWindow.QuotedLineColour | src/components/ui/CodeWindow.tsx:10 | "this.name = 'KerYagciHTL';" is green: the quote wins over `this.`. |
| CodeWindow.ThisLineColour | src/components/ui/CodeWindow.tsx:12 | "this.languages = [" is cyan: `this.` wins over the bracket. |
| CodeWindow.BracketLineColour | src/components/ui/CodeWindow.tsx:15 | "];" is yellow. |
| CodeWindow.EmptyLineColour | src/components/ui/CodeWindow.tsx:18 | The empty line is white. |

## Left out

- The network itself (`fetch`, headers, per-page and sort query parameters, `AbortController` and the 5-second timeout) is not modelled. Each request is the outcome it came back with.
- `JSON.parse` and `JSON.stringify` are not modelled. Analytics only assumes the round-trip laws in `Analytics.CodecLaws`. For comments, the body parser is a parameter that yields an author and content, or nothing.
- `GithubApi.FetchOrganizedRepositories`: an ok reply whose body parses as JSON but is not a repository array (such as `{"message": "x"}`) is not modelled, and neither is a snapshot that holds such a value. The source's `fetchRepositories` returns that value unchanged, with no fallback. Then `allRepos.map` throws, and the `catch` rethrows the error to the caller. The model's reply body is either a repository list or a body that does not decode, so it has no counterpart for this error.
- `GithubApi.FetchRepoNamesAndDescriptions`: the same non-array body makes `repos.map` throw, and the error is rethrown to the caller. This error is not modelled, for the same reason.
- `LoadAnalytics`: a parsed object that only partly has the record's shape (a `pageViews` field with non-numeric counts, say) is not modelled. A parse is a full record, another JSON value, or a syntax error.
- `ToComment`: a body that parses as JSON but lacks `author` or `content` is not modelled. In the source, such a body gives a comment with undefined fields. In the model, the parser either yields both fields or yields nothing, which sends the issue down the fallback branch.
- `Analytics.AnalyticsStore.TrackPageView`: a `setItem` that throws a quota error is not modelled. Every write succeeds.
- GoatCounter (`trackWithGoatCounter`, the script injection in `initializeAnalytics`) and every `console` call are left out, because they are output only.
- `generateVisitorId`'s `Math.random` and `Date.now` parts are the parameter `randomPart`. `new Date()` and ISO timestamps are integers.
- `Analytics.DefaultData`: the source reads the clock separately for `firstVisit`, for the default `lastVisit` and again for the new `lastVisit` in `trackPageView`. The model passes one `now` to all three, so `firstVisit == lastVisit` holds in the model's default record where the source's values can differ by the time between the reads.
- `Language.T`: a JavaScript object lookup also finds names inherited from `Object.prototype`. `t("toString")` returns that function in the source and the key in the model. No page passes such a key.
- `Language.LanguageProvider.Translate`: the same inherited-name gap as `Language.T`.
- `Analytics.ViewsOf`: for a page named after an inherited property, such as "constructor", `pageViews[p] || 0` is that truthy property in the source, not 0. The model counts 0. Page names are URL paths such as "/", which never collide.
- `Analytics.Bump`: for "constructor" the source stores a string (the function's text followed by "1"), and for "__proto__" it stores nothing. The model appends a count of 1 in both cases.
- `Analytics.TopPages`: JavaScript lists integer-like object keys (such as "12") before other keys. The model keeps plain insertion order (`BumpNewAppends`, `BumpKeepsPlaces`), which only affects the order of ties.
- `uniqueVisitors` is read and written back but never incremented anywhere in the analytics code. The model keeps that behaviour.
- The `setInterval` scheduling of the code window (200 ms) and its cleanup are not modelled. `CodeWindow.Ticker.Tick` is one firing of the callback.
- The presentation components, animations and the other pages are not part of this model.
- The featured names are passed as a list of strings. The site's own default list (`PROFILE.featured` in src/constants/profile.ts) holds objects, so `featuredRepos.includes(repo.name)` never matches with that default. The model states the behaviour for name lists.
- The repository fetcher and comments page have no in-memory cache with a time-to-live, no per-comment profile enrichment, and no separate handling of HTTP 403 and 404. All comment failures give one message. Every repository failure the model expresses (network error, non-ok status, a body that does not decode) falls back. The model follows the code.
- The `Projects.tsx` filter that shows only featured repositories, and the snapshot generator `fetchRepos.js`, are not part of this model.
