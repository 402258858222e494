# openreview-monitor, modelled in Dafny

openreview-monitor watches OpenReview submissions for their authors. A
FastAPI backend keeps papers and their e-mail subscribers in a database. A
scheduler polls OpenReview, finds new reviews, modified reviews and
decisions, mails the subscribers who asked for them, and marks each mail as
sent. An admin API lists and edits papers, subscribers and the SMTP and
schedule settings behind a login with a throttle. A React frontend lets an
author preview a paper, confirm their address and subscribe. It lets the
admin manage the lists and the settings, and choose the backend the browser
talks to. It also carries its own English/Chinese text tables and search-engine metadata.

The model has one Dafny module per source file. Boilerplate shared by
several files sits in helper modules:

- `Wrappers`: `Option` and `Result`.
- `Text`: the string functions used, over ASCII.
- `Json`: JSON values as the code reads them.
- `Sorting`: a stable insertion sort.
- `Grouping`: grouping a list by key into an insertion-ordered dictionary.
- `Tables`: the database rows; `Tables.Database` is a class whose handlers
  update its maps.
- `LocalStorage`: the browser's `localStorage`, as a class holding a map.

Code that computes a value becomes functions with lemmas about them.
Code that updates state has a different form:

- The rate limiter, the database and the stores are classes whose methods
  update their fields.
- The scheduler's loops are methods with loop invariants, each proved
  against a function that specifies the whole run.
- Each React component is a class with one field per `useState`. Each
  handler is a method whose `ensures` gives the final state after the
  handler ends, through a `View()` of all fields.

Effects the code cannot decide become inputs to the model:

- the clock;
- OpenReview's answers;
- the SMTP server's answers;
- the Fernet cipher;
- the environment and command line;
- each `fetch` a page makes, as the answer it received.

## Model

| member | source | states |
|---|---|---|
| RateLimit.Pruned | backend/app/utils/rate_limit.py:17-20 | what `_prune` keeps: nothing longer than the deque, and a first entry after the cutoff |
| RateLimit.PrunedIsSuffix | backend/app/utils/rate_limit.py:17-20 | the kept entries are a suffix of the deque and every dropped entry is at or before the cutoff |
| RateLimit.PrunedSortedAfterCutoff | backend/app/utils/rate_limit.py:17-20 | in a sorted deque every kept entry is after the cutoff |
| RateLimit.PrunedIdempotent | backend/app/utils/rate_limit.py:17-20 | pruning twice with one cutoff is pruning once |
| RateLimit.RetryAfter | backend/app/utils/rate_limit.py:30-32 | the suggested wait is at least one second and otherwise the time until the oldest attempt leaves the window |
| RateLimit.RetryAfterBounds | backend/app/utils/rate_limit.py:29-33 | the wait never exceeds the window, and is exact while the oldest attempt is inside it |
| RateLimit.AfterCheck | backend/app/utils/rate_limit.py:26-28 | `is_blocked` adds the key to the table (the `defaultdict` lookup) and touches no other key |
| RateLimit.AfterAdd | backend/app/utils/rate_limit.py:40-43 | `add_attempt` grows the key's deque by at most one entry, ending in `now`, and touches no other key |
| RateLimit.AfterReset | backend/app/utils/rate_limit.py:48-49 | `reset` forgets the key and keeps every other key |
| RateLimit.AddKeepsSorted | backend/app/utils/rate_limit.py:36-43 | with a clock that does not run backwards a recorded deque stays sorted and no later than now |
| RateLimit.CheckSeesAdd | backend/app/utils/rate_limit.py:22-43 | a check at the clock reading of a recorded attempt still counts that attempt |
| RateLimit.PrunedKeepsOrder | backend/app/utils/rate_limit.py:17-20 | pruning keeps a deque sorted and no later than now |
| RateLimit.OperationsKeepOrder | backend/app/utils/rate_limit.py:22-49 | all three operations keep every deque sorted and no later than a later clock reading |
| RateLimit.RateLimiter.constructor | backend/app/utils/rate_limit.py:10-15 | the limiter is enabled exactly when both limits are positive, and starts with no attempts |
| RateLimit.RateLimiter.Prune | backend/app/utils/rate_limit.py:17-20 | the popping loop leaves exactly `Pruned(entries, now - window)` |
| RateLimit.RateLimiter.IsBlocked | backend/app/utils/rate_limit.py:22-34 | a disabled limiter never blocks and changes nothing; otherwise the key is pruned, blocked iff at least `max_attempts` remain, with `RetryAfter` of the oldest |
| RateLimit.RateLimiter.AddAttempt | backend/app/utils/rate_limit.py:36-43 | a disabled limiter changes nothing; otherwise the state is `AfterAdd` |
| RateLimit.RateLimiter.Reset | backend/app/utils/rate_limit.py:45-49 | a disabled limiter changes nothing; otherwise the key is forgotten |
| Crypto.EncryptValue | backend/app/utils/crypto.py:34-42 | `None` stays `None`, `""` stays `""`, a value with the `enc:` prefix is returned as is, any other is `enc:` plus the sealed token |
| Crypto.DecryptValue | backend/app/utils/crypto.py:45-57 | `None`, `""` and unprefixed values come back unchanged; a prefixed value is opened, and fails with "Invalid encrypted value" exactly when the cipher rejects the token, and otherwise yields what the cipher opened |
| Crypto.EncryptIdempotent | backend/app/utils/crypto.py:39-40 | encrypting an encrypted value changes nothing |
| Crypto.DecryptEncrypt | backend/app/utils/crypto.py:34-57 | with a cipher whose open undoes seal, decrypting an encryption gives the value back |
| PapersRouter.FirstMatch | backend/app/routers/papers.py:24-26 | `re.search` finds the leftmost position where `[?&]id=` followed by a non-`&` character matches, or reports that there is none |
| PapersRouter.GroupAt | backend/app/routers/papers.py:24-27 | the captured group is the non-empty run of non-`&` characters after `id=`, ending at `&` or at the end of the URL |
| PapersRouter.ExtractPaperId | backend/app/routers/papers.py:17-33 | fails with "Invalid OpenReview URL or ID" exactly when the text is not a bare id and is not an openreview.net URL with an `id` parameter; off openreview.net it succeeds exactly on a bare id and returns it unchanged |
| PapersRouter.ExtractLeftmost | backend/app/routers/papers.py:23-27 | on an openreview.net URL the id is the group at the leftmost match |
| PapersRouter.ExtractFromQuery | backend/app/routers/papers.py:23-27 | `base?id=x`, with an openreview.net base free of `?` and `&`, gives back `x` |
| PapersRouter.ExtractForumUrl | backend/app/routers/papers.py:23-27 | the forum link `https://openreview.net/forum?id=x` gives back `x` |
| PapersRouter.BareIdAccepted | backend/app/routers/papers.py:29-31 | a bare id comes back unchanged, and so does one followed by a final newline, because `$` matches before it |
| PapersRouter.Login | backend/app/services/openreview.py:12-20 | the client logs in exactly when both username and password are non-empty, with those credentials |
| PapersRouter.FetchError | backend/app/routers/papers.py:62-78 | a text naming `ForbiddenError`, `permission` in any case or `status': 403` gives 403 with the private-paper message; any other gives 400 with the fetch-failed message |
| PapersRouter.OptionalText | backend/app/schemas.py:7-13 | an `Optional[str]` field accepts exactly null and strings, keeping the string |
| PapersRouter.TextList | backend/app/schemas.py:13 | a `List[str]` field accepts exactly lists of strings, keeping every element in order |
| PapersRouter.PreviewOf | backend/app/routers/papers.py:55-61 | the preview is built exactly when title, venue and authors validate, and carries the extracted id, the submission number, the title and venue (text, or `None` for null) and every author's text in order |
| PapersRouter.PreviewPaper | backend/app/routers/papers.py:36-78 | a bad id gives 400 with the extraction message; a failed fetch gives the permission-dependent error; every error is 400 or 403; a preview carries the extracted id and at most five authors, and is exactly the preview built from the fetched note's paper info |
| PapersRouter.Subscription | backend/app/routers/papers.py:92-95 | finds a subscriber of that paper with that e-mail, and finds none exactly when no row matches both |
| PapersRouter.AddPaperTo | backend/app/routers/papers.py:81-146 | the handler as evidently intended, with the `notify_on_review_modified` column declared: refuses with 400 "already subscribed", or adds exactly one subscriber row under the next id, built from the request as `NewSubscriber` builds it (e-mail and all three preferences given, nothing notified yet), tied to the paper with that OpenReview id; a known paper leaves the paper table alone, an unknown one is inserted as pending under the next paper id |
| PapersRouter.AddPaperRefuses | backend/app/routers/papers.py:86-101 | the request is refused exactly when the paper exists and the e-mail already subscribes to it |
| PapersRouter.AddPaperWellFormed | backend/app/routers/papers.py:81-146 | adding keeps the tables well formed: ids below the counters, keys matching ids, every subscriber pointing at a stored paper |
| PapersRouter.AddPaperTwice | backend/app/routers/papers.py:86-101 | repeating a successful subscription is refused |
| PapersRouter.GetPaperStatus | backend/app/routers/papers.py:149-163 | 404 "Paper not found" exactly when there is no such paper; otherwise its id and its stored title, status, venue and review data |
| PapersRouter.AddPaper | backend/app/routers/papers.py:81-146 | the handler as written, against the database: answers what `AddPaperAsWritten` says and writes nothing |
| PapersRouter.AddPaperAsWritten | backend/app/routers/papers.py:81-146 | as written: 400 "already subscribed" exactly when the intended handler refuses, and 500 for every other request, because both branches that go on build a `Subscriber` with a keyword the mapped class does not declare |
| PapersRouter.AddPaperIntended | backend/app/routers/papers.py:81-146 | the intended handler against the database: keeps it valid and the config unchanged, and does exactly what `AddPaperTo` says to the tables, leaving them unchanged on a refusal |
| PapersRouter.NewSubscriber | backend/app/routers/papers.py:132-139 | the inserted subscriber has the next id, the paper and e-mail given, the three requested preferences (review, modified review, decision), and neither notified flag set |
| PapersRouter.NewPaper | backend/app/routers/papers.py:120-128 | the inserted paper has the next id, the given OpenReview id, title, venue and submission number, status `pending`, and no check recorded yet |
| Tables.InsertPaperWellFormed | backend/app/models.py:7-12 | inserting a paper row under the next id with an OpenReview id no row has keeps the tables well formed, which includes the uniqueness of `openreview_id` |
| Tables.InsertSubscriberWellFormed | backend/app/models.py:30-35 | inserting a subscriber row under the next id for a stored paper keeps the tables well formed, which includes the foreign key `paper_id` |
| Tables.IdsBelow | backend/app/models.py:11 | lists, strictly ascending, exactly the ids of the set below the bound |
| Tables.PaperIds | backend/app/routers/admin.py:72 | `query(Paper).all()` lists every stored paper exactly once, in ascending id order |
| Tables.SubscriberIdsWhere | backend/app/services/scheduler.py:167-170 | a filtered subscriber query lists, ascending, exactly the stored subscribers meeting the filter |
| Tables.IncreasingCard | backend/app/routers/admin.py:77 | a strictly ascending id list has as many elements as its set, so a count counts rows |
| Tables.SubscriberCount | backend/app/routers/admin.py:77 | `count()` is the number of subscribers of that paper |
| Tables.FindPaper | backend/app/routers/papers.py:86-88 | finds a paper with that OpenReview id, and finds none exactly when no stored paper has it |
| Tables.TextLessStrict | backend/app/routers/admin.py:72 | the code-point order on text used by `ORDER BY` is irreflexive, transitive and total |
| Tables.NullableTextLessStrict | backend/app/routers/admin.py:72 | ordering a nullable column with `NULL` first is irreflexive, transitive and total |
| Tables.KeyName | backend/app/routers/admin.py:212-226 | every configuration key has a non-empty name in the `config` table |
| Tables.Database.constructor | backend/app/database.py:28-31 | the freshly created tables are empty, the counters start at 1, and the tables are well formed |
| Tables.Database.Snapshot | backend/app/models.py:7-52 | the paper and subscriber tables as one value, well formed exactly when the database is valid |
| Text.Lower | backend/app/routers/papers.py:65 | `str.lower()` keeps the length and lowers each ASCII capital, leaving other characters alone |
| Text.TrimStart | backend/app/routers/admin.py:176 | drops exactly the leading whitespace: the result is a suffix, everything dropped is whitespace, and it does not start with whitespace |
| Text.TrimEnd | backend/app/routers/admin.py:176 | drops exactly the trailing whitespace: the result is a prefix, everything dropped is whitespace, and it does not end with whitespace |
| Text.Trim | backend/app/services/scheduler.py:30 | `str.strip()` gives text that neither starts nor ends with whitespace |
| Text.TrimIsSlice | backend/app/services/scheduler.py:30 | the stripped text is a contiguous piece of the original |
| Text.TrimNoSpaceEnds | backend/app/services/scheduler.py:30 | text without whitespace at either end is unchanged by stripping |
| Text.TrimAllSpace | backend/app/routers/admin.py:176 | all-whitespace text strips to empty, which is how a blank `from_name` is detected |
| Text.NatToString | backend/app/services/scheduler.py:36 | `str(n)` of a non-negative integer is a non-empty run of digits |
| Text.DigitsOfNat | backend/app/services/scheduler.py:36 | the digits of `str(n)` denote `n` |
| Text.ParseInt | backend/app/server.py:41 | `int(s)` succeeds only on text that is not blank once stripped |
| Text.ParseUnsigned | backend/app/server.py:41 | unsigned digits (with single underscores between digits) parse exactly when well formed |
| Text.PositiveDigitsParse | backend/app/server.py:41 | `int` of a run of digits is its decimal value |
| Text.NegativeDigitsParse | backend/app/server.py:41 | `int` of `-` followed by digits is the negated value |
| Text.NatToStringRoundTrip | backend/app/services/scheduler.py:36 | `int(str(n)) == n`, so stored intervals and ports read back as written |
| Text.LexLeTotal | backend/app/routers/admin.py:72 | the code-point order on text is total |
| Text.LexLeTrans | backend/app/routers/admin.py:72 | the code-point order on text is transitive |
| Text.LexLeAntisym | backend/app/routers/admin.py:72 | the code-point order on text is antisymmetric |
| Text.BeforeFirst | backend/app/routers/admin.py:31 | `s.split(sep)[0]` is the longest prefix without `sep`, ending at its first occurrence or the end |
| Json.Get | backend/app/services/openreview.py:77-84 | `dict.get` gives the entry, or `None` for an absent key |
| Json.ScalarText | backend/app/services/openreview.py:236 | `str()` of a string is the string itself; lists and dicts have no text in this model |
| Sorting.Insert | backend/app/services/scheduler.py:81-84 | inserting grows the list by one |
| Sorting.InsertPermutes | backend/app/services/scheduler.py:81-84 | insertion adds exactly the one element |
| Sorting.InsertSorted | backend/app/services/scheduler.py:81-84 | inserting into a sorted list keeps it sorted under a strict order |
| Sorting.SortCorrect | backend/app/routers/admin.py:72 | sorting under a strict order gives a sorted permutation of the input |
| Sorting.Sort | backend/app/routers/admin.py:72 | an insertion sort: same length as its input |
| Sorting.InsertTied | backend/app/services/scheduler.py:81-84 | an inserted element lands after every element tied with it |
| Sorting.SortStable | backend/app/services/scheduler.py:81-84 | under a strict weak order the sort is stable: the elements tied with any `x` appear in the same order as in the input |
| Sorting.SortSameElements | backend/app/routers/admin.py:72 | an element is in the sorted list exactly when it is in the input |
| Grouping.Keys | backend/app/services/scheduler.py:71-74 | the group labels in first-appearance order, no more of them than elements |
| Grouping.Group | backend/app/services/scheduler.py:71-74 | a group holds no more than the input |
| Grouping.KeysExactly | backend/app/services/scheduler.py:71-74 | labels are distinct and are exactly the keys of the elements |
| Grouping.GroupExactly | backend/app/services/scheduler.py:71-74 | an element is in a label's group exactly when it is in the input with that key |
| Grouping.GroupsPartition | backend/app/services/scheduler.py:71-74 | the group sizes add up to the number of elements, so no element is lost or repeated |
| Grouping.SumSizesAppend | backend/app/services/scheduler.py:71-74 | adding a label adds its group's size |
| Grouping.SumSizesStep | backend/app/services/scheduler.py:72-74 | appending an element grows the total by one exactly when its label is listed |
| Grouping.GroupBy | backend/app/services/scheduler.py:71-74 | the `defaultdict(list)` loop builds the labels in first-appearance order and, for each, its group in input order |
| Grouping.GroupEmpty | backend/app/services/scheduler.py:71-74 | a label no element has has an empty group |
| Grouping.Entries | frontend/src/components/PaperList.tsx:84-89 | `Object.entries` of the reduced record: one entry per label in first-appearance order, each with its group |
| Grouping.EntriesPartition | frontend/src/components/PaperList.tsx:84-89 | entries have distinct labels, every element appears in exactly the entry of its own label, and the sizes add up to the input's |
| LocalStorage.Storage.constructor | frontend/src/lib/apiBase.ts:42 | the store starts with the given items |
| LocalStorage.Storage.GetItem | frontend/src/lib/apiBase.ts:42 | `getItem` gives `null` exactly for a missing key, otherwise its value |
| LocalStorage.Storage.SetItem | frontend/src/lib/apiBase.ts:50 | `setItem` records that value under that key and changes no other |
| LocalStorage.Storage.RemoveItem | frontend/src/lib/apiBase.ts:48 | `removeItem` forgets exactly that key |
| OpenReview.ContentValue | backend/app/services/openreview.py:77-84 | an absent key gives `None`, a wrapped value gives its `value` entry (or `None`), a bare value is returned as is |
| OpenReview.FirstValue | backend/app/services/openreview.py:156-160 | the `for key in …: … break` search yields either `None` or a value the test accepts, and `None` when there are no keys |
| OpenReview.FirstValueIsFirst | backend/app/services/openreview.py:156-160 | the key loop yields the content value at the first accepted key, and `None` when no key is accepted |
| OpenReview.FindFirstValue | backend/app/services/openreview.py:209-213 | the loop that breaks at the first accepted key computes that first accepted value |
| OpenReview.MatchStart | backend/app/services/openreview.py:90 | `re.sub` removes the leftmost place from which `\s*(Conference\s*)?Submission\s*$` matches to the end, ignoring case; no earlier place matches |
| OpenReview.CleanVenueName | backend/app/services/openreview.py:86-93 | cleaning never lengthens the venue and keeps an empty venue empty |
| OpenReview.CleanVenueNoMatch | backend/app/services/openreview.py:86-93 | a venue without the suffix is only stripped |
| OpenReview.CleanVenueMatch | backend/app/services/openreview.py:86-93 | when the leftmost match starts at `p`, the venue becomes its first `p` characters, stripped |
| OpenReview.UpperPrefix | backend/app/services/openreview.py:100 | `[A-Z]+` greedily takes the longest run of ASCII capitals at the start |
| OpenReview.ExtractVenueFromDomain | backend/app/services/openreview.py:95-103 | a missing or empty domain gives `None` |
| OpenReview.UpperPrefixOf | backend/app/services/openreview.py:100 | the capitals run of `LETTERS` followed by a non-capital is `LETTERS` |
| OpenReview.DomainVenue | backend/app/services/openreview.py:95-103 | a domain `LETTERS.cc/YYYY…` gives `"LETTERS YYYY"` |
| OpenReview.DomainVenueShape | backend/app/services/openreview.py:95-103 | every venue so extracted comes from a domain starting `LETTERS.cc/YYYY` and reads `"LETTERS YYYY"` |
| OpenReview.Invitations | backend/app/services/openreview.py:105-111 | the non-empty invitation list, else the non-empty single invitation as a list, else nothing |
| OpenReview.MetaReviewIsDecision | backend/app/services/openreview.py:120-125 | a venue's `/-/Meta_Review` invitation marks a decision note |
| OpenReview.ReviewOf | backend/app/services/openreview.py:139-173 | the review record keeps the note's id and modification date; with dict content the rating is the first present of `rating`, `recommendation`, `score` and each other field is its content value; without dict content all eight fields are `None` |
| OpenReview.ReviewsOf | backend/app/services/openreview.py:133-173 | there are no more reviews than notes |
| OpenReview.ReviewsOfExactly | backend/app/services/openreview.py:133-173 | a record is among the reviews exactly when some note with a review invitation produced it |
| OpenReview.GetReviews | backend/app/services/openreview.py:127-182 | a fetch gives the reviews of its notes; a failed fetch gives none when errors are suppressed and re-raises otherwise |
| OpenReview.DecisionFields | backend/app/services/openreview.py:195-213 | the decision record carries the note's modification date; with dict content the decision is `decision` when truthy, else `recommendation`, and the comment is the first truthy of `comment`, `metareview`, `meta_review`, `explanation`; without dict content both are `None` |
| OpenReview.DecisionText | backend/app/services/openreview.py:236 | the text the status rule tests holds no upper-case ASCII letter, and for a text decision it is exactly that text lower-cased |
| OpenReview.FirstDecision | backend/app/services/openreview.py:189-221 | a decision found is truthy |
| OpenReview.FirstDecisionIsFirst | backend/app/services/openreview.py:189-221 | there is no decision exactly when no note is a decision note with a truthy decision; otherwise it is the first such note's |
| OpenReview.FirstDecisionNone | backend/app/services/openreview.py:189-221 | no decision exactly when no note is deciding |
| OpenReview.FirstDecisionIndex | backend/app/services/openreview.py:189-221 | a decision comes from a deciding note with no deciding note before it |
| OpenReview.GetDecision | backend/app/services/openreview.py:184-227 | a fetch gives the first deciding note's decision; a failed fetch gives none when errors are suppressed and re-raises otherwise |
| OpenReview.Classify | backend/app/services/openreview.py:234-244 | the status is one of pending, reviewed, accepted, rejected, decided |
| OpenReview.ClassifyCases | backend/app/services/openreview.py:234-244 | pending exactly without decision and reviews, reviewed exactly with reviews and no decision, accepted exactly when the decision text contains `accept`, rejected exactly when it contains `reject` but not `accept`, and a decided status exactly when there is a decision |
| OpenReview.Report | backend/app/services/openreview.py:248-254 | the status is `Classify`'s, `has_decision` holds exactly when a decision was found (equivalently, for the decided statuses), the reviews and decision are those given, `review_count` counts them, and a reviewed paper has at least one |
| OpenReview.CheckPaperStatus | backend/app/services/openreview.py:229-254 | with both fetches, the report of their reviews and first decision; with errors suppressed it always succeeds, and a failed fetch reads as no reviews or no decision; otherwise the first failed fetch's error is raised |
| OpenReview.IntOf | backend/app/services/openreview.py:59-63 | a number is kept; `None`, lists and dicts give no submission number |
| OpenReview.VenueOf | backend/app/services/openreview.py:41-51 | a truthy text venue is cleaned (falling back to the domain when cleaning empties it); with neither venue nor venueid the domain venue is used; it fails exactly when the chosen value is truthy but not text |
| OpenReview.GetPaperInfo | backend/app/services/openreview.py:25-75 | a failed fetch re-raises; the info carries the note's id, `int(number)` and at most five authors; without dict content title and venue are `None` and there are no authors; with dict content the title is the content's `title` value and the venue the one `VenueOf` picks, and the call fails exactly when the fetch fails or that venue lookup raises |
| OpenReview.AuthorsArePrefix | backend/app/services/openreview.py:54-56 | the authors kept are the first five of the list |
| Email.NewEmailService | backend/app/services/email.py:20-34 | the service keeps the settings it is given and times out after 15 seconds by default |
| Email.Truncate | backend/app/services/email.py:59-61 | text within the limit is unchanged; longer text is cut to the limit and ends in `...` |
| Email.TruncateKeepsPrefix | backend/app/services/email.py:59-61 | a cut text keeps exactly the original's first `limit` characters |
| Email.Section | backend/app/services/email.py:59-61 | a falsy value omits the section, text is truncated to the limit, and any other truthy value raises |
| Email.BlockOf | backend/app/services/email.py:45-61 | a review block carries the heading it is given, the rating and confidence, its summary cut to 500 characters and its strengths and weaknesses cut to 300 (each omitted when empty), and fails exactly when one of its text sections fails |
| Email.HeadingAt | backend/app/services/email.py:364-374 | blocks of the review mail are headed "Reviewer 1", "Reviewer 2", …; blocks of the modified-review mail carry the plain "Modified Review" heading |
| Email.Blocks | backend/app/services/email.py:45-61 | one block per review |
| Email.BlocksAreNumbered | backend/app/services/email.py:45-54 | rendering succeeds exactly when every review renders, and block `i` is review `i`'s block under its heading: numbered `i + 1` in the review mail, "Modified Review" in the modified-review mail |
| Email.RenderReviewBlocks | backend/app/services/email.py:363-383 | the `reviews_html +=` loop of either template renders exactly the blocks `Blocks` gives, or stops at the first failure |
| Email.FailureExtends | backend/app/services/email.py:44-62 | a failure in a prefix of the reviews is the failure of the whole rendering |
| Email.Badge | backend/app/services/email.py:84 | `venue or "OpenReview"` |
| Email.Heading | backend/app/services/email.py:87 | `paper_title or paper_id` |
| Email.ReviewSubjectFrame | backend/app/services/email.py:313 | the review subject starts with the bracketed venue badge and ends with the heading |
| Email.DecisionSubjectFrame | backend/app/services/email.py:340 | the decision subject starts with the bracketed venue badge and ends with ` - ` and the heading |
| Email.ModifiedSubjectFrame | backend/app/services/email.py:437 | the modified-review subject starts with the bracketed venue badge and ends with the heading |
| Email.AcceptedAgreesWithStatus | backend/app/services/email.py:116 | the decision mail's accepted colouring agrees with the paper being classified `accepted` from the same text decision |
| Email.ReviewMail | backend/app/services/email.py:302-325 | the review message has the review subject, recipient and sender, renders exactly when every review block renders, and then shows the venue badge, the heading, the number of reviews and the numbered blocks |
| Email.CommentSection | backend/app/services/email.py:106-180 | a falsy comment is omitted, a truthy text comment is shown as it is, and any other truthy comment fails |
| Email.Ratings | backend/app/services/email.py:124-125 | one rating per review, in order |
| Email.DecisionMail | backend/app/services/email.py:327-354 | the decision message renders exactly when the decision is text and the comment renders; it has the decision subject, the recipient and the sender, and shows the venue badge, the heading, the decision text, the accepted colour (`"accept" in decision.lower()`), the comment section and every review's rating in order |
| Email.ModifiedMail | backend/app/services/email.py:426-451 | the modified-review message has its subject, recipient and sender, renders exactly when every block renders, and then shows the venue badge, the heading and one unnumbered "Modified Review" block per modified review |
| Email.PreSend | backend/app/services/email.py:212-236 | missing username or password raises the credentials message first, then a missing sender raises the sender message; otherwise port 465 uses implicit TLS and any other port STARTTLS |
| Email.SendSync | backend/app/services/email.py:212-267 | configuration errors come before any connection; otherwise success exactly when the server accepts, and each failed exchange raises its own message |
| Email.OutcomeMessage | backend/app/services/email.py:244-267 | the `ValueError` message each failed SMTP exchange is turned into, naming the host and port where the source does |
| Email.Deliver | backend/app/services/email.py:318-325 | a notification reports `True` exactly when the message renders, the service is configured and the server accepts; every error becomes `False` |
| Email.SendReviewNotification | backend/app/services/email.py:302-325 | a sent review notice implies a configured service and renderable reviews |
| Email.SendDecisionNotification | backend/app/services/email.py:327-354 | a sent decision notice implies a configured service and a text decision |
| Email.SendReviewModifiedNotification | backend/app/services/email.py:426-451 | a sent modified-review notice implies a configured service and renderable reviews |
| Email.MisconfiguredNeverSends | backend/app/services/email.py:212-218 | without credentials or sender no notification reports success, whatever the server would answer |
| Email.ConfiguredReviewSends | backend/app/services/email.py:302-325 | a configured service whose server accepts reports success, for new and for modified reviews, when the reviews' text fields are text |
| Email.SendTestEmail | backend/app/services/email.py:274-286 | the test mail returns `True` exactly when the service is configured and the server accepts, and otherwise raises, configuration errors first |
| Scheduler.ConfigOr | backend/app/services/scheduler.py:25-27 | a stored row's value, possibly null, wins; without a row the default is used |
| Scheduler.FromName | backend/app/services/scheduler.py:29-32 | a stored `from_name` that is non-blank once stripped is used stripped; a null or blank one falls back to the default; with no row at all the default is used, stripped unless it is blank |
| Scheduler.GetEmailService | backend/app/services/scheduler.py:19-43 | as written, building the service always fails: an undeclared `from_name` setting raises AttributeError, and otherwise, once the port parses and the password decrypts, the constructor rejects the `from_name` keyword |
| Scheduler.StatusOf | backend/app/services/scheduler.py:130-144 | a report obtained counts its reviews, and `has_decision` holds exactly when a decision came back |
| Scheduler.StoredById | backend/app/services/scheduler.py:148-150 | the map keys each stored review by its own id and has every stored id |
| Scheduler.StoredByIdLastWins | backend/app/services/scheduler.py:150 | for a repeated id the last stored review wins |
| Scheduler.StoredByIdKeys | backend/app/services/scheduler.py:150 | an id is a key exactly when some stored review has it |
| Scheduler.ModifiedReviews | backend/app/services/scheduler.py:152-163 | there are no more modified reviews than fetched ones |
| Scheduler.ModifiedExactly | backend/app/services/scheduler.py:152-163 | a review is reported modified exactly when it was fetched, its id is stored, and both modification dates are truthy and differ; a new id never is |
| Scheduler.MarkReviewed | backend/app/services/scheduler.py:199-208 | the review-mail loop keeps the subscriber keys and changes a row only by setting `notified_review` |
| Scheduler.MarkDecided | backend/app/services/scheduler.py:220-231 | the decision-mail loop keeps the subscriber keys and changes a row only by setting `notified_decision` |
| Scheduler.MarkReviewedEffect | backend/app/services/scheduler.py:199-208 | a subscriber is flagged exactly when it is queried and its review mail was sent |
| Scheduler.MarkDecidedEffect | backend/app/services/scheduler.py:220-231 | a subscriber is flagged exactly when it is queried and its decision mail was sent |
| Scheduler.Updated | backend/app/services/scheduler.py:183-188 | the checked row gets the new status, the clock reading, the fetched reviews with their count, and the new decision when there is one; identity fields and credentials stay |
| Scheduler.ReviewStage | backend/app/services/scheduler.py:190-208 | the review step keeps the subscriber keys |
| Scheduler.DecisionStage | backend/app/services/scheduler.py:211-231 | the decision step keeps the subscriber keys |
| Scheduler.ReviewStageEffect | backend/app/services/scheduler.py:190-208 | a subscriber is flagged exactly when the paper was pending and has reviews, the subscriber wants review mail and was not notified, and its mail was sent |
| Scheduler.DecisionStageEffect | backend/app/services/scheduler.py:211-231 | a subscriber is flagged exactly when a decision was found, the subscriber wants decision mail and was not notified, and its mail was sent |
| Scheduler.SingleCheck | backend/app/services/scheduler.py:122-244 | `check_single_paper` as written: only the checked paper's row changes; the result is `True` exactly when the check ran to its end and found a decision; a failed fetch, or a fetched review that counts as modified (whose recipient query names the undeclared column and raises, caught by the `except`), returns `False` with the tables unchanged and nobody told; a check that runs to its end updates the row as `Updated` says |
| Scheduler.WantsModified | backend/app/services/scheduler.py:166-170 | the filter of the modified-review recipient query: subscribers of the paper with `notify_on_review_modified` set |
| Scheduler.SingleCheckIntended | backend/app/services/scheduler.py:122-244 | `check_single_paper` as evidently intended, with the column declared: a failed fetch changes nothing and tells no one; a successful one reports the modified reviews, updates the row as `Updated` says, and returns `True` exactly when a decision was found |
| Scheduler.SingleCheckAgrees | backend/app/services/scheduler.py:165-181 | the written and the intended check agree exactly when the fetch fails or no review counts as modified; otherwise the written one returns `False` and changes nothing while the intended one updates the row |
| Scheduler.ModifiedCheckStuck | backend/app/services/scheduler.py:183-185 | as written, a paper with a modified review keeps its stored reviews, so checking it any number of times against the same answer returns `False` each time and changes nothing |
| Scheduler.SingleCheckFlagsOnly | backend/app/services/scheduler.py:190-231 | a check changes subscribers only in their two notified flags, only from unset to set, and only for the checked paper's subscribers |
| Scheduler.ReviewFlagRule | backend/app/services/scheduler.py:190-208 | after a check `notified_review` is set exactly when it was set before, or the check ran to its end (fetch succeeded, no review modified) and the review mail was due, wanted and sent |
| Scheduler.DecisionFlagRule | backend/app/services/scheduler.py:211-231 | after a check `notified_decision` is set exactly when it was set before, or the check ran to its end (fetch succeeded, no review modified), found a decision, and the mail was wanted and sent |
| Scheduler.ModifiedRecipientsRule | backend/app/services/scheduler.py:165-181 | in the intended check (`SingleCheckIntended`), the modified-review notice goes to exactly the paper's `notify_on_review_modified` subscribers, and only when some review counts as modified |
| Scheduler.FindModified | backend/app/services/scheduler.py:152-163 | the modification scan loop computes exactly the modified reviews |
| Scheduler.FlagsKeepWellFormed | backend/app/services/scheduler.py:190-231 | changing subscribers only in their flags keeps the tables well formed |
| Scheduler.NotifyReviewSubscribers | backend/app/services/scheduler.py:199-208 | the review-mail loop over the queried subscribers does what `MarkReviewed` says |
| Scheduler.NotifyDecisionSubscribers | backend/app/services/scheduler.py:220-231 | the decision-mail loop over the queried subscribers does what `MarkDecided` says |
| Scheduler.FetchStatus | backend/app/services/scheduler.py:130-140 | decrypting the stored credentials and fetching the status gives `StatusOf`, including its failures |
| Scheduler.SingleCheckWellFormed | backend/app/services/scheduler.py:122-244 | a check keeps the tables well formed |
| Scheduler.CheckSinglePaper | backend/app/services/scheduler.py:122-244 | as written, against the database: returns what `SingleCheck` returns, leaves the tables as it says (nothing written after a failed fetch or a modified review), keeps the counters and the config, and keeps the database valid |
| Scheduler.ReportEffects | backend/app/services/scheduler.py:183-231 | after a fetch with no modified review, the subscribers are those after the review step and then the decision step |
| Scheduler.VenueKey | backend/app/services/scheduler.py:73 | `paper.venue or "unknown"` is never empty |
| Scheduler.MonitoredRows | backend/app/services/scheduler.py:60-66 | the selected rows are no more than the ids |
| Scheduler.MonitoredRowsExactly | backend/app/services/scheduler.py:60-66 | a row is selected exactly when it is listed and its status is pending, reviewed, null or empty |
| Scheduler.SelectedExactly | backend/app/services/scheduler.py:60-66 | exactly the stored monitored papers are selected |
| Scheduler.NumberLessStrict | backend/app/services/scheduler.py:81-84 | the sort key `(number is None, number or 0)` orders strictly |
| Scheduler.NumberLessWeak | backend/app/services/scheduler.py:81-84 | papers with equal keys are interchangeable: the key order is a strict weak order |
| Scheduler.VenueRowsStable | backend/app/services/scheduler.py:81-84 | within a venue, papers with the same key are checked in the order the query returned them |
| Scheduler.NumberOrder | backend/app/services/scheduler.py:80-84 | in a sorted venue list an unnumbered paper never precedes a numbered one, and numbers never decrease |
| Scheduler.IdsOf | backend/app/services/scheduler.py:79-107 | the ids of the rows, in order |
| Scheduler.Queues | backend/app/services/scheduler.py:70-84 | one queue per venue |
| Scheduler.VenueRowsExactly | backend/app/services/scheduler.py:70-84 | a paper is in a venue's queue exactly when it is selected and has that venue |
| Scheduler.QueuesPartition | backend/app/services/scheduler.py:70-84 | venues are distinct, a selected paper's venue is listed, and a paper is in exactly its own venue's queue |
| Scheduler.VenueRowsSorted | backend/app/services/scheduler.py:81-84 | each venue's list is sorted by the key |
| Scheduler.QueuesInPapers | backend/app/services/scheduler.py:70-84 | queued ids name stored papers |
| Scheduler.CheckEach | backend/app/services/scheduler.py:98-107 | checking a list checks exactly those ids, in order, recording one result each, and keeps the table keys |
| Scheduler.CheckEachStep | backend/app/services/scheduler.py:98-101 | one more id extends the run by that paper's check |
| Scheduler.VenueRun | backend/app/services/scheduler.py:91-109 | the first five papers are always checked, and the rest exactly when one of those five returned `True` |
| Scheduler.RunQueues | backend/app/services/scheduler.py:79-109 | running the venues keeps the table keys |
| Scheduler.RunQueuesStep | backend/app/services/scheduler.py:79-109 | one more venue extends the run by that venue's run |
| Scheduler.CheckAll | backend/app/services/scheduler.py:56-109 | the run over the venue queues of the selected papers keeps the table keys |
| Scheduler.CheckList | backend/app/services/scheduler.py:98-107 | the check loop over a list of ids does what `CheckEach` says and reports whether any check returned `True` |
| Scheduler.CheckVenue | backend/app/services/scheduler.py:91-109 | one venue against the database does what `VenueRun` says |
| Scheduler.CheckQueues | backend/app/services/scheduler.py:79-109 | the venue loop does what `RunQueues` says for the sorted queues |
| Scheduler.CheckAllPapers | backend/app/services/scheduler.py:46-119 | a failure to build the e-mail service checks nothing and changes nothing; otherwise the run is that of the venue queues; the database stays valid |
| Server.Kept | backend/app/server.py:19 | `PurePosixPath` drops exactly the empty and `.` components |
| Server.Parts | backend/app/server.py:19 | the components of a path are non-empty, not `.`, and free of `/` |
| Server.LStripSlash | backend/app/server.py:22 | `lstrip('/')` leaves a suffix that does not start with `/` |
| Server.PartsOfNoSlash | backend/app/server.py:19 | text without a slash only extends the component being read |
| Server.ComponentsOfJoin | backend/app/server.py:22-24 | joining clean components with `/` and splitting again gives them back |
| Server.JoinHead | backend/app/server.py:22 | a join of clean components starts with the first one's first character |
| Server.SlashComponents | backend/app/server.py:19-20 | leading slashes do not change the components |
| Server.AsPosixSameFile | backend/app/server.py:19-24 | `as_posix()` names the same components, and is absolute exactly when the path is |
| Server.AbsoluteStripped | backend/app/server.py:20-22 | stripping the root off an absolute path's POSIX form leaves its components joined, starting with no slash |
| Server.SqliteUrlFromPath | backend/app/server.py:13-24 | `:memory:` gives the in-memory URL, and text containing `://` is already a URL and is returned as is |
| Server.SqliteUrlOfFile | backend/app/server.py:19-24 | a file path gives `sqlite:///` followed by a path naming the same file; an absolute path gets exactly one more slash, so `sqlite:////` |
| Server.ParsePort | backend/app/server.py:37-43 | a missing or empty value gives no port; otherwise `int(value)`, or the exit message `Invalid port: …` exactly when it does not parse |
| Server.PortRoundTrip | backend/app/server.py:37-43 | a port written in decimal is read back |
| Server.Getenv | backend/app/server.py:71-82 | `os.getenv` finds exactly the variables that are set |
| Server.FirstText | backend/app/server.py:71 | `a or b or default`: the first non-empty text |
| Server.FirstPort | backend/app/server.py:73 | `a or b or default` on ports: the first present non-zero port |
| Server.DatabaseUrl | backend/app/server.py:75-84 | `--database-url` wins, then `--db-path` made into a SQLite URL |
| Server.DatabaseUrlPrecedence | backend/app/server.py:75-84 | the environment counts only without either option: then `DATABASE_URL` wins over `DB_PATH`, and without both the default file is used |
| Server.Startup | backend/app/server.py:71-84 | an invalid `APP_PORT` always exits, even with `--port`; otherwise host, port and database URL follow the option-then-environment-then-default order, and `--reload` is passed on |
| Server.StartupDefaults | backend/app/server.py:8-10 | with nothing given the server binds 0.0.0.0:8000, and a port of 0 falls through to the next source |
| Server.Environ.constructor | backend/app/server.py:86 | the process environment starts as given |
| Server.RunServer | backend/app/server.py:46-93 | `main` launches with what `Startup` chooses and exports the chosen database URL as `DATABASE_URL`, changing no other variable; on exit the environment is untouched |
| AdminConfig.GetConfigValue | backend/app/routers/admin.py:172-178 | a missing row or a null value gives the default, and so does a blank value when blanks are not allowed; otherwise the stored value |
| AdminConfig.GetConfig | backend/app/routers/admin.py:166-193 | every failure is a 500; undeclared settings always fail; a response shows the numbers that parse from the stored or default values and the stored-or-default texts, `from_name` ignoring blanks |
| AdminConfig.GetConfigAsWritten | backend/app/routers/admin.py:182-192 | with the settings the repository declares, `get_config` always answers 500, whatever is stored |
| AdminConfig.Put | backend/app/routers/admin.py:203-209 | `set_config_value` stores a given value under its key and leaves every other key alone; no value leaves the table as it was |
| AdminConfig.PutStep | backend/app/routers/admin.py:211-226 | each write in the handler's order extends the writes done before it |
| AdminConfig.UpsertedWrites | backend/app/routers/admin.py:211-226 | after the upserts each key holds what the request gave it (numbers as text, the password encrypted), or what it held before when the field was left out |
| AdminConfig.UpdateConfigRows | backend/app/routers/admin.py:196-230 | the undeclared `review_mod_check_interval` field makes the handler fail with 500 before anything is stored; otherwise the table is the upserted one |
| AdminConfig.StoredPasswordDecrypts | backend/app/routers/admin.py:221-222 | the stored password decrypts back to the one given |
| AdminConfig.ReadBack | backend/app/routers/admin.py:172-178 | a written value is read back, unless it is blank and blanks are not allowed, when the default is read |
| AdminConfig.ReadBackNumber | backend/app/routers/admin.py:181 | a non-negative number written as text parses back to itself |
| AdminConfig.UpdateThenGet | backend/app/routers/admin.py:166-230 | whatever `update_config` writes is what `get_config` then shows, when it answers |
| AdminConfig.UpdateConfig | backend/app/routers/admin.py:196-230 | against the database: leaves papers and subscribers alone, answers 500 with nothing stored or the success message with the upserted table |
| AdminRouter.ClientIp | backend/app/routers/admin.py:28-34 | without a non-empty `X-Forwarded-For` the client host, else `unknown`; with one, an address no longer than the header |
| AdminRouter.ClientIpFromHeader | backend/app/routers/admin.py:30-31 | from a header the address has no comma and no surrounding blanks, and starts the header once its leading blanks are gone |
| AdminRouter.ClientIpHasNoComma | backend/app/routers/admin.py:30-31 | from a header the address contains no comma |
| AdminRouter.ClientIpIsTrimmed | backend/app/routers/admin.py:30-31 | from a header the address has no surrounding blanks |
| AdminRouter.ClientIpStartsHeader | backend/app/routers/admin.py:30-31 | from a header the address starts the header once its leading blanks are gone |
| AdminRouter.ClientIpFirstEntry | backend/app/routers/admin.py:31 | the header `first,rest` gives `first`, stripped |
| AdminRouter.BeforeFirstOf | backend/app/routers/admin.py:31 | splitting `first,rest` at commas starts with `first` |
| AdminRouter.Login | backend/app/routers/admin.py:37-62 | the token on success; otherwise 429 with a `Retry-After` header or 401 "Incorrect password"; other addresses' attempts are untouched |
| AdminRouter.LoginBlocked | backend/app/routers/admin.py:41-47 | the answer is 429 exactly when the address is blocked; then it carries the retry delay, records nothing and does not depend on the password |
| AdminRouter.LoginWrongPassword | backend/app/routers/admin.py:49-54 | a wrong password on an address that is not blocked records one attempt at the current time and answers 401 |
| AdminRouter.LoginSucceeds | backend/app/routers/admin.py:56-62 | a right password on an address that is not blocked issues the token and forgets the address's attempts |
| AdminRouter.LoginUnthrottled | backend/app/routers/admin.py:41-56 | with throttling off the password alone decides and nothing is recorded |
| AdminRouter.AdminLogin | backend/app/routers/admin.py:37-62 | against the module's limiter, keyed by the client address: answers and updates the attempts as `Login` says |
| AdminRouter.Patched | backend/app/routers/admin.py:138-145 | each of title, venue, status and submission number is replaced exactly when given; every other column stays |
| AdminRouter.PatchedIdempotent | backend/app/routers/admin.py:138-145 | applying a patch twice equals applying it once, and the empty patch changes nothing |
| AdminRouter.ViewOf | backend/app/routers/admin.py:153-163 | a `PaperResponse` validates exactly when the status is not null, and shows the row's id, status, venue, number and title |
| AdminRouter.UpdatePaperRows | backend/app/routers/admin.py:125-163 | 404 "Paper not found" and no change for an unknown id; otherwise the patch is committed, and the response (500 for a null status) carries the subscriber count |
| AdminRouter.UpdatePaperWellFormed | backend/app/routers/admin.py:138-147 | a patch keeps the tables well formed, since it never touches the OpenReview id |
| AdminRouter.UpdatePaper | backend/app/routers/admin.py:125-163 | against the database, does what `UpdatePaperRows` says and leaves the config alone |
| AdminRouter.WithoutPaper | backend/app/models.py:27 | deleting a paper removes exactly it and, by the cascade, exactly its subscribers, leaving other rows and the counters |
| AdminRouter.WithoutPaperWellFormed | backend/app/models.py:27 | the cascade keeps the tables well formed |
| AdminRouter.DeletePaper | backend/app/routers/admin.py:107-122 | 404 and no change for an unknown id; otherwise the paper and its subscribers go |
| AdminRouter.PaperLessStrict | backend/app/routers/admin.py:72 | `ORDER BY venue, submission_number`, with ties broken by id as a modelling choice, is a strict order |
| AdminRouter.RowsOf | backend/app/routers/admin.py:72 | the rows of the ids, in order |
| AdminRouter.AnyNotified | backend/app/routers/admin.py:80-88 | `first() is not None` holds exactly when some subscriber of the paper has the flag |
| AdminRouter.Listed | backend/app/routers/admin.py:72 | the papers ordered by venue, then submission number, as `order_by(Paper.venue, Paper.submission_number)` |
| AdminRouter.ListingRow | backend/app/routers/admin.py:74-102 | one response row: the paper with its subscriber count and the two any-subscriber-notified flags |
| AdminRouter.Listing | backend/app/routers/admin.py:65-104 | fails with 500 exactly when a listed paper has a null status; otherwise one response row per paper, in listing order |
| AdminRouter.ListedCovers | backend/app/routers/admin.py:72 | the listing order holds every stored paper and nothing else |
| AdminRouter.ListingCovers | backend/app/routers/admin.py:65-104 | the response has a row for every paper and for nothing else |
| AdminRouter.ListingOrdered | backend/app/routers/admin.py:72 | rows come by venue with null first, and within a venue by submission number with null first |
| AdminRouter.ListingRowFlags | backend/app/routers/admin.py:77-101 | a row counts the paper's subscribers and says whether any was told of reviews, and of a decision |
| AdminRouter.ListingFlags | backend/app/routers/admin.py:75-102 | every row of the listing carries its own paper's count and flags |
| AdminRouter.GetAllPapers | backend/app/routers/admin.py:74-104 | the loop that builds the rows computes `Listing` |
| AdminRouter.SendTestEmail | backend/app/routers/admin.py:233-247 | a `ValueError` while building the service or sending gives 400 with its text, any other error 500 "Failed to send email: …", success "Test email sent to …" |
| AdminRouter.SendTestEmailAsWritten | backend/app/routers/admin.py:238-247 | with the declared settings the test e-mail always answers 500, because `from_name` is not a declared setting |
| SubscribersRouter.JoinedLessStrict | backend/app/routers/subscribers.py:19-21 | `ORDER BY papers.venue, papers.submission_number, subscribers.id` is a strict order |
| SubscribersRouter.JoinIds | backend/app/routers/subscribers.py:19 | the inner join keeps exactly the subscribers whose paper exists |
| SubscribersRouter.JoinRows | backend/app/routers/subscribers.py:19 | each joined row pairs a subscriber with its own paper |
| SubscribersRouter.ListedCovers | backend/app/routers/subscribers.py:19-21 | every subscriber appears in the query result with its own paper, and nothing else does |
| SubscribersRouter.ListedOrdered | backend/app/routers/subscribers.py:19-21 | the result is ordered by venue, then submission number, nulls first, then subscriber id |
| SubscribersRouter.ResponseOf | backend/app/routers/subscribers.py:25-37 | a `SubscriberResponse` validates exactly when `notify_on_review_modified` is given, and copies the subscriber's fields and its paper's title, venue and number |
| SubscribersRouter.Listing | backend/app/routers/subscribers.py:13-39 | fails with 500 exactly when some row lacks the required field; otherwise one response per joined row, in order |
| SubscribersRouter.ListingAsWritten | backend/app/routers/subscribers.py:25-37 | as written the handler never passes `notify_on_review_modified`, so the listing succeeds exactly when there are no subscribers, and is then empty |
| SubscribersRouter.ListingRows | backend/app/routers/subscribers.py:25-37 | each response row carries its subscriber's own fields and its paper's title, venue and number |
| SubscribersRouter.GetAllSubscribers | backend/app/routers/subscribers.py:23-39 | the loop computes `Listing` |
| SubscribersRouter.WithoutSubscriber | backend/app/routers/subscribers.py:54 | deleting removes exactly that subscriber, leaving papers and counters |
| SubscribersRouter.WithoutSubscriberWellFormed | backend/app/routers/subscribers.py:54 | the deletion keeps the tables well formed |
| SubscribersRouter.DeleteSubscriber | backend/app/routers/subscribers.py:42-57 | 404 "Subscriber not found" and no change for an unknown id; otherwise the row goes |
| SubscribersRouter.ResetRows | backend/app/routers/subscribers.py:72-73 | the two notified flags of exactly that subscriber are cleared, nothing else changes |
| SubscribersRouter.ResetRowsProperties | backend/app/routers/subscribers.py:72-73 | a reset keeps the tables well formed and the subscriber's preferences, and a second reset changes nothing |
| SubscribersRouter.ResetNotifications | backend/app/routers/subscribers.py:60-76 | 404 and no change for an unknown id; otherwise the flags are cleared as `ResetRows` says |
| ApiBase.StripTrailingSlash | frontend/src/lib/apiBase.ts:18 | `replace(/\/+$/, '')` leaves a prefix that does not end in `/`, having removed only slashes |
| ApiBase.StripTrailingSlashExactly | frontend/src/lib/apiBase.ts:18 | the result is empty exactly when the text was all slashes, and text not ending in `/` is kept |
| ApiBase.StripTrailingSlashAppend | frontend/src/lib/apiBase.ts:18 | trailing slashes of the second part never reach into the first |
| ApiBase.WithApiSuffix | frontend/src/lib/apiBase.ts:20 | the result ends in `/api`; a value already ending so is kept, any other gets `/api` appended |
| ApiBase.SchemeFirst | frontend/src/lib/apiBase.ts:23 | a value matching `/^https?:\/\//i` starts with `h` or `H` |
| ApiBase.InferredScheme | frontend/src/lib/apiBase.ts:25-26 | `http://` for `localhost` and `127.0.0.1`, `https://` otherwise |
| ApiBase.NormalizeProtocol | frontend/src/lib/apiBase.ts:22-28 | a value starting with `/` or a scheme is kept; any other gets the inferred scheme in front |
| ApiBase.ProtocolFirst | frontend/src/lib/apiBase.ts:22-28 | the protocol step never makes a value start with `/` |
| ApiBase.NormalizeTrimmed | frontend/src/lib/apiBase.ts:35-39 | a result ends in `/api` and not in `/` |
| ApiBase.NormalizeApiBase | frontend/src/lib/apiBase.ts:30-40 | a normalised base ends in `/api` and not in `/` |
| ApiBase.NormalizeApiBaseTrimmed | frontend/src/lib/apiBase.ts:31-33 | blank input gives `null`; any other is normalised after trimming |
| ApiBase.NormalizeApiBaseNull | frontend/src/lib/apiBase.ts:30-40 | the result is `null` exactly for blank input and for input that is only slashes once trimmed |
| ApiBase.NormalizeTrimmedScheme | frontend/src/lib/apiBase.ts:22-39 | a value with no scheme and no leading slash gets the inferred scheme, loses its trailing slashes and gets the suffix |
| ApiBase.NormalizeApiBaseScheme | frontend/src/lib/apiBase.ts:30-40 | such input normalises to the inferred scheme followed by the trimmed value without trailing slashes, plus `/api` when missing |
| ApiBase.NormalizeTrimmedKeeps | frontend/src/lib/apiBase.ts:35-39 | a value ending in `/api` that starts with `/` or a scheme passes unchanged |
| ApiBase.NormalizeApiBaseKeeps | frontend/src/lib/apiBase.ts:30-40 | such a value normalises to itself |
| ApiBase.NormalizeApiBaseStable | frontend/src/lib/apiBase.ts:30-40 | normalising again a result that starts with `/` or a scheme changes nothing |
| ApiBase.LowerPrefix | frontend/src/lib/apiBase.ts:23 | a prefix without capitals is also a prefix ignoring case |
| ApiBase.TrimmedSchemeStable | frontend/src/lib/apiBase.ts:22-39 | after an inferred scheme the result still starts with a scheme |
| ApiBase.SchemePrefix | frontend/src/lib/apiBase.ts:23 | a value starting `http://` or `https://` has a scheme |
| ApiBase.PrefixKept | frontend/src/lib/apiBase.ts:20 | the suffix step keeps the value's start |
| ApiBase.InferredSchemeStable | frontend/src/lib/apiBase.ts:30-40 | input without a scheme normalises to a base with one, so normalising it again changes nothing |
| ApiBase.BareSchemeTrimmed | frontend/src/lib/apiBase.ts:35-39 | `http://` keeps its scheme and then loses both slashes, giving `http:/api` |
| ApiBase.SlashSchemeTrimmed | frontend/src/lib/apiBase.ts:22-39 | `http:/api` has no scheme and gets `https://` in front |
| ApiBase.SlashApiNoScheme | frontend/src/lib/apiBase.ts:22-28 | `http:/api` starts with neither a slash nor a scheme nor a local host, so scheme inference treats it as a remote host |
| ApiBase.BareSchemeUnstable | frontend/src/lib/apiBase.ts:30-40 | normalisation is not idempotent on a bare scheme: `http://` gives `http:/api`, which gives `https://http:/api` |
| ApiBase.BuildApiUrl | frontend/src/lib/apiBase.ts:86-90 | the URL ends with the endpoint |
| ApiBase.BuildApiUrlSlashes | frontend/src/lib/apiBase.ts:86-90 | one slash between base and endpoint is optional on either side, and exactly one ends up between them |
| ApiBase.OfficialBaseRaw | frontend/src/lib/apiBase.ts:9-12 | the first non-empty of the official and the general build-time URLs, else `/api` |
| ApiBase.GetApiConfig | frontend/src/lib/apiBase.ts:53-67 | custom mode exactly when `custom` is stored with a non-empty custom base, which is then the base; otherwise the base is the official one, normalised or `/api` |
| ApiBase.OfficialBaseShape | frontend/src/lib/apiBase.ts:54 | the official base always ends in `/api` |
| ApiBase.Persisted | frontend/src/lib/apiBase.ts:44-51 | the base is recorded; the admin token is dropped exactly when a different non-empty base was recorded before; no other item changes |
| ApiBase.PersistedIdempotent | frontend/src/lib/apiBase.ts:44-51 | recording the same base again changes nothing |
| ApiBase.ModeStored | frontend/src/lib/apiBase.ts:71-75 | the mode is stored, the base it makes active is recorded, the admin token is dropped exactly when a different non-empty base was recorded before, and no other item changes |
| ApiBase.CustomStored | frontend/src/lib/apiBase.ts:77-84 | the normalised custom base is stored, the active base is recorded, the admin token is dropped exactly when a different non-empty base was recorded before, and no other item changes |
| ApiBase.PersistBase | frontend/src/lib/apiBase.ts:44-51 | the storage ends as `Persisted` says |
| ApiBase.SetApiMode | frontend/src/lib/apiBase.ts:71-75 | the storage ends as `ModeStored` says |
| ApiBase.SetCustomApiBase | frontend/src/lib/apiBase.ts:77-84 | returns the normalisation of the input; input that fails it writes nothing, otherwise the storage ends as `CustomStored` says |
| ApiBase.ModeAfterSet | frontend/src/lib/apiBase.ts:53-84 | storing a custom base then choosing custom mode makes it the active base; choosing official mode makes the official base active |
| ApiBase.CustomAfterSet | frontend/src/lib/apiBase.ts:53-84 | storing a non-empty custom base and then choosing custom mode makes that base active |
| ApiBase.OfficialAfterSet | frontend/src/lib/apiBase.ts:53-75 | choosing official mode makes the official base active |
| AdminToken.TokenStore.constructor | frontend/src/lib/adminToken.ts:1 | the page starts with no token |
| AdminToken.TokenStore.GetAdminToken | frontend/src/lib/adminToken.ts:3 | reads the token last set |
| AdminToken.TokenStore.SetAdminToken | frontend/src/lib/adminToken.ts:5-7 | the next read returns exactly the token given, `null` included |
| AdminToken.TokenStore.ClearAdminToken | frontend/src/lib/adminToken.ts:9-11 | the next read returns `null` |
| ApiClient.HeaderKeys | frontend/src/lib/api.ts:16-20 | the two header names `fetchApi` tests name the two case-folded keys |
| ApiClient.HeadersOf | frontend/src/lib/api.ts:15 | `new Headers(init)` holds exactly the names listed, case-folded |
| ApiClient.Headers.constructor | frontend/src/lib/api.ts:15 | a new `Headers` holds what `HeadersOf` says |
| ApiClient.Headers.Set | frontend/src/lib/api.ts:17 | `set` replaces the value under the case-folded name and changes nothing else |
| ApiClient.PreparedHeaders | frontend/src/lib/api.ts:14-21 | the caller's headers are kept; JSON is the content type when none was given; a bearer credential is added exactly when the stored token is non-empty and no `Authorization` was given |
| ApiClient.PrepareHeaders | frontend/src/lib/api.ts:14-21 | the fresh header object ends as `PreparedHeaders` says |
| ApiClient.FetchResultCases | frontend/src/lib/api.ts:36-52 | data exactly for a 2xx answer whose body parses; a non-2xx answer reports its non-empty `detail`, else its status; an abort reports the timeout message; another `Error` its own message; anything else thrown `Unknown error` |
| ApiClient.TimeoutOf | frontend/src/lib/api.ts:210-214 | 45 seconds exactly for the test e-mail, the 60-second default for every other call |
| ApiClient.EndpointUrl | frontend/src/lib/api.ts:141-220 | every endpoint starts with `/`, so the URL is the base without one trailing slash followed by the endpoint |
| ApiClient.FetchApi | frontend/src/lib/api.ts:8-53 | the request goes to the active base with the call's method, timeout and prepared headers, and the answer is as `FetchResultCases` describes |
| UrlParams.Get | frontend/src/components/SeoManager.tsx:54-55 | `get` is `null` exactly when no pair has the name, and otherwise the value of a pair with it, the first one |
| UrlParams.Without | frontend/src/components/SeoManager.tsx:64 | no pair with the name is left |
| UrlParams.SetParam | frontend/src/components/SeoManager.tsx:64 | `params.set`: the first pair with the name takes the value in place and later ones are removed, else the pair is appended; its properties are `SetParamProperties` |
| UrlParams.Serialize | frontend/src/components/SeoManager.tsx:65 | `params.toString()`: `name=value` pairs joined by `&`, in order, without percent-encoding |
| UrlParams.SetParamProperties | frontend/src/components/SeoManager.tsx:62-64 | after `set` the name reads back the value, every other name reads as before, the pairs with other names are kept in order, and one pair with the name remains |
| UrlParams.WithoutGet | frontend/src/components/SeoManager.tsx:64 | removing a name does not change any other name's value |
| UrlParams.WithoutTwice | frontend/src/components/SeoManager.tsx:64 | removing a name is idempotent |
| UrlParams.SearchParams.constructor | frontend/src/components/SeoManager.tsx:62 | the object holds the pairs given |
| UrlParams.SearchParams.GetValue | frontend/src/components/SeoManager.tsx:63 | reads as `Get` on the pairs |
| UrlParams.SearchParams.Set | frontend/src/components/SeoManager.tsx:64 | the pairs become `SetParam` of the old ones |
| I18n.ParseLocale | frontend/src/lib/i18n.tsx:434-436 | only `en` and `zh` are locales, each parsed from its own code |
| I18n.CodeRoundTrip | frontend/src/lib/i18n.tsx:3 | a locale's code parses back to it |
| I18n.LocaleTag | frontend/src/lib/i18n.tsx:463 | the document language is `zh-CN` exactly for Chinese, else `en` |
| I18n.OpenGraphLocale | frontend/src/lib/i18n.tsx:490 | the `og:locale` is `zh_CN` exactly for Chinese, else `en_US` |
| I18n.WordRun | frontend/src/lib/i18n.tsx:424 | `\w+` matches the longest run of word characters at the start |
| I18n.WordRunOf | frontend/src/lib/i18n.tsx:424 | a word followed by a non-word character is matched whole |
| I18n.Placeholder | frontend/src/lib/i18n.tsx:424 | a match is `{`, one or more word characters, then `}` |
| I18n.Substitute | frontend/src/lib/i18n.tsx:424-427 | the left-to-right `replace` scan: each `{word}` becomes its variable's value or stays verbatim, and replaced text is not scanned again; its properties are the lemmas below |
| I18n.Interpolate | frontend/src/lib/i18n.tsx:422-428 | without a `vars` argument the template comes back unchanged |
| I18n.InterpolateNoVars | frontend/src/lib/i18n.tsx:422-428 | without variables, or with an empty set of them, the template comes back unchanged |
| I18n.SubstituteNoVars | frontend/src/lib/i18n.tsx:424-427 | substituting with no variables changes nothing |
| I18n.PlaceholderVerbatim | frontend/src/lib/i18n.tsx:426 | an absent variable's placeholder is written back exactly |
| I18n.SubstitutePlain | frontend/src/lib/i18n.tsx:424-427 | text without `{` is never changed |
| I18n.PlaceholderReplaced | frontend/src/lib/i18n.tsx:424-427 | a leading `{key}` becomes the variable's value (or stays as it was when absent) and the scan goes on after it |
| I18n.Template | frontend/src/lib/i18n.tsx:469 | the active table's entry, else the English entry, else the key itself |
| I18n.T | frontend/src/lib/i18n.tsx:467-471 | without variables, a key neither table has reads as itself, and a key only the English table has reads as its English entry |
| I18n.MissingKeyShown | frontend/src/lib/i18n.tsx:469-470 | a key neither table has, holding no `{`, is shown as itself |
| I18n.FallbackToEnglish | frontend/src/lib/i18n.tsx:469 | a key missing from the Chinese table reads as in the English one |
| I18n.DefaultLocale | frontend/src/lib/i18n.tsx:430-440 | a valid `lang` query parameter decides the locale |
| I18n.DefaultLocaleZh | frontend/src/lib/i18n.tsx:430-440 | Chinese exactly when the first valid source among query, storage and browser language says so |
| I18n.LocaleState.constructor | frontend/src/lib/i18n.tsx:452 | the provider starts in the default locale |
| I18n.LocaleState.SetLocale | frontend/src/lib/i18n.tsx:454-459 | the locale becomes active and is stored under `locale`, and nothing else in storage changes |
| I18n.LocaleRemembered | frontend/src/lib/i18n.tsx:435-457 | a stored locale is chosen at the next start unless the address has a valid `lang` |
| Seo.NormalizeLangParam | frontend/src/components/SeoManager.tsx:5-8 | a locale exactly for `en` and `zh`, the one the text names |
| Seo.CanonicalQueryIs | frontend/src/components/SeoManager.tsx:82-87 | the canonical query is `?lang=` followed by the locale's code |
| Seo.SeoLinks | frontend/src/components/SeoManager.tsx:77-136 | English and Chinese alternates on the page path (`/` when empty), `x-default` the English one, canonical the current locale's, the image at the origin, `noindex,nofollow` exactly for paths under `/admin`, and the locale tags |
| Seo.AdminHidden | frontend/src/components/SeoManager.tsx:93-94 | admin pages are hidden from indexing and the root page is not |
| Seo.LangToAdopt | frontend/src/components/SeoManager.tsx:53-59 | the address's locale is adopted exactly when it is valid and differs from the current one |
| Seo.SyncAddress | frontend/src/components/SeoManager.tsx:61-75 | no navigation exactly when `lang` already names the current locale; otherwise the same path and hash with `lang` set to it |
| Seo.SerializeNonEmpty | frontend/src/components/SeoManager.tsx:65-69 | parameters with a pair serialise to non-empty text, so the search gets its `?` |
| Seo.SyncSettles | frontend/src/components/SeoManager.tsx:61-75 | after the replacement `lang` names the locale, the other parameters are kept, and the first effect has nothing to adopt |
| Seo.EffectsDisagree | frontend/src/components/SeoManager.tsx:53-75 | when the address names the other valid locale, one render both adopts that locale and rewrites the address to the current one |
| PaperForm.OrUndefined | frontend/src/components/PaperForm.tsx:56-57 | an empty credential is omitted and any other is sent as typed |
| PaperForm.PreviewRequestOf | frontend/src/components/PaperForm.tsx:54-58 | the preview request carries the URL and the non-empty credentials |
| PaperForm.CreateRequestFields | frontend/src/components/PaperForm.tsx:108-119 | the subscription payload: title falls back to the id, venue to `Unknown`, the code is trimmed, empty credentials are omitted, and the three preferences are sent as chosen |
| PaperForm.SenderEmail | frontend/src/components/PaperForm.tsx:42-43 | the sender address is shown exactly when the public config has a non-blank one, trimmed |
| PaperForm.Cleared | frontend/src/components/PaperForm.tsx:134-149 | the reset state is consistent: no preview, nothing sent and the first step |
| PaperForm.AfterEmailChange | frontend/src/components/PaperForm.tsx:319-327 | a changed address drops a sent or typed code and its expiry, so subscribing needs a new code; consistency is kept |
| PaperForm.EmailChangeLast | frontend/src/components/PaperForm.tsx:319-327 | editing the address twice is the same as editing it once to the final value |
| PaperForm.PaperFormState.constructor | frontend/src/components/PaperForm.tsx:15-33 | the form starts in the reset state, consistent, with nothing loading and no sender address |
| PaperForm.PaperFormState.LoadSenderEmail | frontend/src/components/PaperForm.tsx:38-48 | only the sender address changes, as `SenderEmail` says |
| PaperForm.PaperFormState.HandlePreview | frontend/src/components/PaperForm.tsx:50-75 | a preview moves to the preview step and forgets any earlier code; an error changes nothing else; consistency is kept |
| PaperForm.PaperFormState.HandleSendVerification | frontend/src/components/PaperForm.tsx:77-102 | nothing is asked exactly when there is no preview or no address; a sent code records its expiry; an error changes nothing else |
| PaperForm.PaperFormState.EmailChange | frontend/src/components/PaperForm.tsx:319-327 | the state becomes `AfterEmailChange` of the old one |
| PaperForm.PaperFormState.CodeChange | frontend/src/components/PaperForm.tsx:359 | only the typed code changes |
| PaperForm.PaperFormState.HandleConfirm | frontend/src/components/PaperForm.tsx:104-132 | nothing is sent exactly when there is no preview; the payload is as `CreateRequestFields` says; a shown error keeps the step and anything else moves to the success step |
| PaperForm.PaperFormState.ConfirmOutcome | frontend/src/components/PaperForm.tsx:121-131 | with a preview, a shown error keeps the step and anything else moves to the success step |
| PaperForm.PaperFormState.Back | frontend/src/components/PaperForm.tsx:259 | the back button only returns to the first step; the preview and form are kept |
| PaperForm.PaperFormState.HandleReset | frontend/src/components/PaperForm.tsx:134-149 | the state becomes the reset state and stays consistent |
| BackendSelector.FormatBase | frontend/src/components/BackendSelector.tsx:23-28 | a base starting with `/` is labelled `Same origin (...)` and any other is shown as it is |
| BackendSelector.FormatBaseShowsValue | frontend/src/components/BackendSelector.tsx:23-28 | the label always contains the base |
| BackendSelector.CheckBackendHealth | frontend/src/components/BackendSelector.tsx:83-103 | healthy exactly for a 2xx answer; another answer names its status; an abort and any other failure have their own messages |
| BackendSelector.StoredBaseIsProbed | frontend/src/components/BackendSelector.tsx:106-122 | a probed base that starts with `/` or a scheme is the one `applyCustom` stores; `http://` is probed as `http:/api` but stored as `https://http:/api` |
| BackendSelector.Selector.constructor | frontend/src/components/BackendSelector.tsx:31-37 | the first render shows official mode with empty fields |
| BackendSelector.Selector.Refresh | frontend/src/components/BackendSelector.tsx:40-48 | both tabs, the input and the shown bases take the stored configuration; error and checking flag are kept |
| BackendSelector.Selector.SetCustomInput | frontend/src/components/BackendSelector.tsx:162-165 | typing sets the input to what was typed and clears the error; nothing else on screen changes |
| BackendSelector.Selector.ApplyOfficial | frontend/src/components/BackendSelector.tsx:56-64 | official mode is stored and shown with the official base active, and the error is cleared |
| BackendSelector.Selector.ApplyCustom | frontend/src/components/BackendSelector.tsx:66-81 | succeeds exactly when the base normalises; a failure only shows the error; a success stores the base and custom mode, and shows that base as active |
| BackendSelector.Selector.ConfirmCustom | frontend/src/components/BackendSelector.tsx:105-123 | input that fails normalisation shows the error and is not probed; otherwise `<base>/health` is probed and the state and storage end as the probe's outcome says |
| BackendSelector.Selector.ProbeOutcome | frontend/src/components/BackendSelector.tsx:114-122 | a failed probe shows its message and stores nothing; a healthy one applies the custom base, which is normalised once more |
| BackendSelector.Selector.HandleModeChange | frontend/src/components/BackendSelector.tsx:125-134 | the official tab applies official mode at once; the custom tab only changes the visible tab and clears the error |
| PaperList.StatusBadge | frontend/src/components/PaperList.tsx:72-81 | a known status has its own colours and anything else is grey |
| PaperList.BadgesDistinct | frontend/src/components/PaperList.tsx:73-79 | the five known statuses have five different badges, none of them grey |
| PaperList.VenueLabel | frontend/src/components/PaperList.tsx:85 | a missing or empty venue is grouped under `Unknown Venue`, so no label is empty |
| PaperList.DisplayTitle | frontend/src/components/PaperList.tsx:133 | the title, or the OpenReview id when it is missing or empty |
| PaperList.ForumLink | frontend/src/components/PaperList.tsx:136 | the forum URL followed by exactly the paper's id |
| PaperList.GroupedPapers | frontend/src/components/PaperList.tsx:84-89 | one entry per venue label, each listed once in order of first appearance; each paper sits in exactly its own label's entry, in list order, and the group sizes add up to the number of papers |
| PaperList.HandleDelete | frontend/src/components/PaperList.tsx:36-54 | a delete is sent exactly when the admin confirms, and the list is fetched again exactly after a confirmed delete with no shown error |
| PaperList.PaperListState.constructor | frontend/src/components/PaperList.tsx:13-14 | the list starts empty and loading |
| PaperList.PaperListState.FetchPapers | frontend/src/components/PaperList.tsx:17-30 | a shown error keeps the list; otherwise the list becomes the data, or empty when there is none; loading ends either way |
| AdminPage.CopiedForm | frontend/src/pages/Admin.tsx:47-58 | the eight listed settings are copied from the answer and the password never is |
| AdminPage.VenueLabel | frontend/src/pages/Admin.tsx:171 | a missing or empty venue is shown under the translated fallback |
| AdminPage.GroupedSubscribers | frontend/src/pages/Admin.tsx:170-175 | one entry per venue label, each listed once; each subscriber sits in exactly its own label's entry, and the group sizes add up to the number of subscribers |
| AdminPage.HandleDeleteSubscriber | frontend/src/pages/Admin.tsx:66-83 | a delete is sent exactly when the admin confirms, and the data is loaded again exactly after a confirmed delete with no shown error |
| AdminPage.HandleResetNotifications | frontend/src/pages/Admin.tsx:85-100 | the reset is always sent, and the data is loaded again exactly when no error is shown |
| AdminPage.DeleteAsksResetDoesNot | frontend/src/pages/Admin.tsx:66-100 | declining the confirmation sends no delete, while a reset is sent without asking; both reload on the same answers |
| AdminPage.AdminPageState.constructor | frontend/src/pages/Admin.tsx:19-25 | the page starts logged out with nothing loaded |
| AdminPage.AdminPageState.Mount | frontend/src/pages/Admin.tsx:29-36 | the page logs in and loads exactly when the in-memory token is non-empty; the backend in use is recorded either way |
| AdminPage.AdminPageState.HandleLogin | frontend/src/pages/Admin.tsx:159-162 | a login logs the page in and loads the data |
| AdminPage.AdminPageState.LoadData | frontend/src/pages/Admin.tsx:38-59 | both lists are asked for; each answer with data replaces its part of the page and an answer without data leaves it as it was |
| AdminPage.AdminPageState.HandleLogout | frontend/src/pages/Admin.tsx:61-64 | the in-memory token is cleared and the page logs out |
| AdminPage.AdminPageState.TypePassword | frontend/src/pages/Admin.tsx:450-462 | only the form's password changes |
| AdminPage.AdminPageState.TypeTestEmail | frontend/src/pages/Admin.tsx:514 | only the test address changes |
| AdminPage.AdminPageState.HandleSaveConfig | frontend/src/pages/Admin.tsx:102-119 | the form is sent as it stands; the data is loaded again exactly when no error is shown; loading ends either way |
| AdminPage.AdminPageState.HandleSendTestEmail | frontend/src/pages/Admin.tsx:121-146 | an empty address sends nothing and changes nothing; otherwise the address is sent and sending ends either way |

## Left out

Infrastructure that the model replaces by inputs or leaves out:

- The database session, queries, commits and the `ALTER TABLE` migration in `backend/app/database.py`. Tables are maps keyed by id. A commit is one assignment of the new maps. The cascade from a paper to its subscribers (`backend/app/models.py:27`) is `AdminRouter.WithoutPaper`.
- `created_at` and `updated_at` columns, and every other value computed by the database clock.
- A query without `ORDER BY` is taken to return rows in ascending id order. SQLite promises no order there.
- The OpenReview client's login and network calls. Each fetch is an input: the notes, or the message of the exception it raised.
- SMTP, TLS, sockets, the thread pool and `asyncio` around `_send_email_sync`. SMTP is an input that says how the server answers a message. The HTML and CSS of the mail bodies are left out beyond the subject lines, fall-backs, truncation and omitted sections.
- The Fernet cipher and its SHA-256 key derivation. The cipher is a pair of functions, seal and open, with open reporting an invalid token.
- `utils/auth.py` is not part of this model. The admin password check is the `passwordOk` input of `AdminRouter.Login`, the issued token is an input, and `get_current_admin` is taken to have passed.
- APScheduler: `start_scheduler`, `stop_scheduler` and the job interval. Logging. The `threading.Lock` of the rate limiter, because the model is sequential.
- `_load_env`, `argparse`, `uvicorn.run` and the `os.environ` writes of `server.py`. Environment and command line are inputs, and the model returns what would be written.
- `main.py`, `config.py`, `routers/public.py`, `schemas.py` and `models.py` are used only for their shapes and defaults. `App.tsx`, `main.tsx`, `Home.tsx` and `vite-env.d.ts` are wiring.
- `AdminLogin.tsx` and `LanguageSwitch.tsx` are thin wrappers: one calls the login endpoint and stores the token, the other toggles the locale through `setLocale`.
- `fetch`, `AbortController` and timers. Each answer is an input, and an aborted request is the `Aborted` answer. The 8-second health timeout and the per-call timeouts are modelled as the values passed along, not as elapsed time.
- React hooks, rendering and JSX, toasts, DOM meta and link writes, `confirm()` (a boolean input), and the `typeof window` and `typeof document` checks. The browser branch is the one modelled.
- Intermediate states while a handler awaits (`loading`, `isChecking`, `verificationSending`). Each handler's contract gives only the state once it has finished.
- The `onChange` setters of the other form fields, the notification checkboxes and `showCredentials`. The `parseInt` and `parseFloat` of numeric fields are also left out, so `NaN` is not modelled.
- The `onChange` callback that `BackendSelector` hands the configuration to after `refresh`. It belongs to the parent page.
- `Intl.DateTimeFormat` in `formatDateTime`.
- The contents of the two translation tables. They are parameters of `I18n.T`.

Behaviour modelled differently from the source:

- Text.Lower, Text.Trim and the other string helpers: case mapping and whitespace are ASCII only. Python and JavaScript use Unicode tables. Likewise `OpenReview.ExtractVenueFromDomain` and `Text.ParseInt` read ASCII digits only, where Python's `\d` and `int()` also accept other Unicode decimal digits.
- Text.IsSpace: whitespace is space, tab, line feed, vertical tab, form feed and carriage return. Python's `str.strip` also removes the separators `\x1c` to `\x1f`, which JavaScript's `trim` keeps; both are excluded here.
- RateLimit: time is an integer clock reading, not the float of `time.monotonic()`, so `int()` of the retry delay needs no truncation.
- AdminPage.ConfigData: `review_mod_request_gap_seconds` is a `real`, not a binary float.
- Json.Num: JSON numbers are integers only. A float rating, confidence or decision is not modelled, and Python's `str()` of a float (`7.5`, `6.0`) is text `Text.IntToString` never produces.
- PapersRouter.AddPaperTo: the `EmailStr` fields of `schemas.py` (lines 27 and 37) reject malformed addresses with 422 and normalise the domain part. The model takes the address as typed, so `a@X.org` and `a@x.org` are two subscribers here but one in the source, and no 422 is modelled.
- AdminRouter.PaperLessStrict: `order_by(Paper.venue, Paper.submission_number)` names no tiebreak, and SQLite promises no order among rows with equal venue and number. The model breaks such ties by id, so `AdminRouter.Listed` and `AdminRouter.ListingOrdered` fix one of the orders the database may return.
- Json.ScalarText: a list or dict has no text. In the source, `str()` gives its `repr`. OpenReview.DecisionText therefore reads a list or dict decision as empty text, and such a decision classifies as `decided` even where its `repr` would contain `accept` or `reject`.
- I18n.Interpolate: variables are strings. `String(value)` of a number is not modelled.
- UrlParams.Serialize: no percent-encoding. Seo.SyncAddress and Seo.CanonicalQuery inherit this, and URL parsing of `location.search` is left to the caller.
- PaperList.GroupedPapers and AdminPage.GroupedSubscribers: groups are listed in order of first appearance. JavaScript lists integer-like keys of a plain object first, in numeric order, so a venue named like a number would come earlier there. A key such as `constructor`, inherited from `Object.prototype`, is not modelled either, and the same holds for PaperList.StatusBadge.
- ApiClient.HeadersOf: whitespace trimming of header values and rejection of invalid header names are not modelled. An exception while building headers, a non-string `detail` and a body that parses to `null` are not modelled either.
- ApiClient.FetchApi: the token is read from `localStorage` as the source does. The admin page reads the separate in-memory store of `AdminToken`. The two are modelled as written and not reconciled.
- AdminPage.AdminPageState.Mount: `if (token)` is a truthiness test, so the model logs in only for a non-empty token. An empty string does not log the page in.
- PaperList's `handleCheckNow`: it only posts `/admin/check-now` and shows a toast. It changes no state, so the model has no member for it, and the property that it neither refetches nor changes the list holds because it touches neither.
- The `/admin/check-now` endpoint: it schedules `check_all_papers(True)` in the background and answers a fixed message. `check_all_papers` takes no argument, so the background task would fail with a `TypeError`. The background run is not modelled.

Cross-file mismatches, modelled as written:

- Scheduler.GetEmailService: reads `settings.from_name`, which `Settings` does not declare, and `EmailService` has no `from_name` parameter. As written it always fails, so `check_all_papers` checks no paper and changes nothing (`Scheduler.CheckAllPapers`). The admin test e-mail answers 500 for the same reason (`AdminRouter.SendTestEmailAsWritten`).
- AdminConfig.UpdateConfig: `ConfigUpdate` does not declare `review_mod_check_interval`. The handler reads it, so as written every update answers 500 and writes nothing.
- AdminConfig.GetConfig: reads the undeclared `review_mod_check_interval` and `from_name` settings, so as written it answers 500.
- SubscribersRouter.Listing: `SubscriberResponse` requires `notify_on_review_modified`, which the handler never passes. As written the listing succeeds only when there are no subscribers (`SubscribersRouter.ListingAsWritten`).
- Scheduler.SingleCheck: when a fetched review counts as modified, the recipient query filters on `Subscriber.notify_on_review_modified`, which `models.py` does not declare. The AttributeError is caught by the function's own `except`, so the check returns `False` before the row or any flag is written (`Scheduler.SingleCheckAgrees`). The stored reviews are never refreshed, so such a paper fails the same way at every later check (`Scheduler.ModifiedCheckStuck`). The modified-review mail is therefore never sent as written.
- ModifiedRecipientsRule: states the recipients of the modified-review mail in `Scheduler.SingleCheckIntended`, the version with the column declared, which the code as written never reaches.
- PapersRouter.AddPaper: both branches that go on build `Subscriber(..., notify_on_review_modified=...)`, a keyword the mapped class does not declare. The constructor raises TypeError, so every request that is not refused answers 500 and nothing is committed (`PapersRouter.AddPaperAsWritten`). `PapersRouter.AddPaperTo` and `PapersRouter.AddPaperIntended` state what the handler evidently intends.
- PapersRouter.AddPaperTo: the intended handler; as written no row is ever inserted, see the line above.
- AdminRouter: at import, `admin.py` reads `settings.admin_login_max_attempts` and `settings.admin_login_window_seconds`, which `Settings` does not declare, so the module raises AttributeError while loading. Its handlers are modelled as though the module had loaded, with the two limits as inputs.
- PapersRouter.GetPaperStatus: `papers.py` imports `PaperStatusResponse`, which `schemas.py` does not define, so the module raises ImportError while loading. `main.py` imports both routers, so as written the backend serves no endpoint. The handlers of `papers.py` are modelled as though the module had loaded, and `StatusView` stands for the missing response class.
- The frontend calls three routes the backend as wired does not serve: `/api/health` (`main.py` serves `/health` only), `/api/public/email-config` (`main.py` never includes `public.router`) and `/api/papers/verify-email` (no route exists). The frontend models take each answer as an input, so they cover whatever these calls return.
- PapersRouter.AddPaper: `verification_code` is never read, so the model's handler takes no code and subscribing does not depend on it.
