# Reddit cross-poster: the publishing core in Dafny

This project models the core of the WordPress plugin *Reddit Cross Poster*
(`reddit-crosspost-plugin.php`). When a post is published, the plugin decides
whether to cross-post it and to which subreddits. It then submits the post's
link to Reddit once per chosen subreddit. The model covers:

- **the category-to-subreddit mapping.** This is an administrator's text of
  lines `category:sub1,sub2`. The mapping is parsed line by line and resolved
  against the post's category names. The per-post "manual subreddit" is then
  appended.
- **the gate of the publish hook.** There are two early exits: no access
  token, and auto-posting off with no manual subreddit.
- **the dispatch loop.** It makes one submit per target, in order, and a
  failure does not stop the loop.
- **the response classifiers.**
  - A submit succeeded iff the decoded body has `json.data.url`.
  - The authorization-code handler stores both tokens iff the body has
    `access_token`.
  - The token request returns the token or `false`.

Modules:

- `Optional` holds `Option`.
- `PhpStrings` covers PHP's `trim`, `explode` and `implode`, and `empty()`
  on strings. Only the trim characters `" \t\n\r\0\x0B"` are stripped.
- `PhpJson` covers the values `json_decode($text, true)` yields and the
  `isset($v[k1]...[kn])` chain. When an object repeats a key, the last
  occurrence wins. It also covers PHP truthiness.
- `Mapping` parses and resolves the mapping (`ParseLine`, `ParseLines`,
  `Resolve`, `MappedTargets` and `TargetSubreddits`).
- `RedditApi` holds the response classifiers and the token store.
- `Publisher` holds the publish hook in two forms:
  - as a function, `Publish`;
  - as the loop program the plugin runs, `PublishToReddit` with
    `CollectTargets`, `LineTargets` and `SubmitAll`.

  The program is proved to make exactly the calls the function describes.

Reddit is a parameter: a `Responder` maps the sequence number of a submit
call and its request to the HTTP outcome. Because the calls are numbered, the
same subreddit named twice can receive different answers. Worked examples
are stated for arbitrary names of the usual shape (`IsPlainName`), and one
instance is spelled out with the literal names.

## Model

| member | source | states |
|---|---|---|
| `PhpStrings.IsFalsy` | reddit-crosspost-plugin.php:176 | `empty($s)` and `!$s` on a string: true exactly for "" and "0" |
| `PhpStrings.Trim` | reddit-crosspost-plugin.php:191-192 | the result of `trim` neither starts nor ends with one of the six trim characters |
| `PhpStrings.TrimIsSlice` | reddit-crosspost-plugin.php:191-192 | `trim` returns a contiguous slice of its input with only trim characters cut off on either side |
| `PhpStrings.TrimKeeps` | reddit-crosspost-plugin.php:190-191 | `trim` never removes a non-trim character, so the colon found by `strpos` survives the trim |
| `PhpStrings.TrimIdempotent` | reddit-crosspost-plugin.php:191-192 | trimming twice is the same as trimming once |
| `PhpStrings.TrimIgnoresTrailing` | reddit-crosspost-plugin.php:189-191 | trailing trim characters such as a carriage return do not change the trimmed line |
| `PhpStrings.Split` | reddit-crosspost-plugin.php:189-192 | `explode` with a one-character delimiter; it always yields at least one piece, "" giving [""] |
| `PhpStrings.TrimEach` | reddit-crosspost-plugin.php:192 | `array_map('trim', ...)`: the list of the pieces, each trimmed on its own, in order |
| `PhpStrings.SplitRoundTrip` | reddit-crosspost-plugin.php:189-192 | `implode` of `explode` gives back the exploded text |
| `PhpStrings.SplitPiecesFree` | reddit-crosspost-plugin.php:189-192 | no piece produced by `explode` contains the delimiter |
| `PhpStrings.SplitSeveralIffDelimiter` | reddit-crosspost-plugin.php:189-192 | `explode` yields more than one piece iff the delimiter occurs; without it, the one piece is the whole text |
| `PhpStrings.SplitJoin` | reddit-crosspost-plugin.php:189-192 | `explode` recovers any non-empty list of delimiter-free pieces from their `implode` |
| `PhpStrings.SplitAround` | reddit-crosspost-plugin.php:189-192 | exploding `a + d + b` gives the pieces of `a` followed by the pieces of `b` |
| `Mapping.ParseLines` | reddit-crosspost-plugin.php:189-197 | the entries of the lines that have a colon, in line order; never more entries than lines |
| `Mapping.ParseMapping` | reddit-crosspost-plugin.php:189 | the mapping text is cut at line feeds only, and each piece is parsed as a line |
| `Mapping.Resolve` | reddit-crosspost-plugin.php:193-194 | the subreddit lists of the entries whose category is one of the post's, merged in entry order |
| `Mapping.MappedTargets` | reddit-crosspost-plugin.php:188-197 | an empty mapping text ("" or "0") selects nothing; otherwise the resolved entries of its lines |
| `Mapping.ParseLine` | reddit-crosspost-plugin.php:190-192 | a line yields an entry iff it contains a colon |
| `Mapping.LineParts` | reddit-crosspost-plugin.php:190-191 | every line with a colon is leading trim characters, a colon-free category that does not start with a trim character, a colon and a rest |
| `Mapping.ParseLineFields` | reddit-crosspost-plugin.php:191-192 | for a line whose text after the first colon has no second colon, the category is the text before the colon exactly as written (after any leading trim characters), and the subreddits are the comma pieces of the text after it, each trimmed |
| `Mapping.ParseLineIgnoresAfterSecondColon` | reddit-crosspost-plugin.php:191 | anything after a second colon on a line is ignored |
| `Mapping.ColonFreeLineIgnored` | reddit-crosspost-plugin.php:189-190 | removing a line without a colon from the mapping leaves the targets unchanged |
| `Mapping.MappedTargetsOfLine` | reddit-crosspost-plugin.php:190-195 | a one-line mapping contributes its subreddit list exactly when its category is one of the post's, otherwise nothing |
| `Mapping.MappedTargetsAppend` | reddit-crosspost-plugin.php:188-197 | two mapping texts joined by a line feed target the first text's subreddits followed by the second's |
| `Mapping.FalsyMappingHasNoEntries` | reddit-crosspost-plugin.php:188 | a mapping text of "" or "0" contributes no entry |
| `Mapping.ResolveMembers` | reddit-crosspost-plugin.php:193-194 | a subreddit is mapped iff some entry whose category is one of the post's lists it |
| `Mapping.TargetSubreddits` | reddit-crosspost-plugin.php:185-202 | the targets are the mapped subreddits followed by the manual subreddit, which is appended only when it is not "" or "0" |
| `Mapping.TargetCount` | reddit-crosspost-plugin.php:185-202 | the number of targets is the sum of the matching entries' list lengths plus one for a manual subreddit, so nothing is deduplicated |
| `Mapping.TwoLineExample` | reddit-crosspost-plugin.php:185-202 | `tech:programming,coding` / `news:worldnews` with categories {tech} targets programming and coding, then the manual subreddit when there is one |
| `Mapping.TwoLineExampleSpelledOut` | reddit-crosspost-plugin.php:185-202 | the same example with the literal names, and with "askreddit" as the manual subreddit |
| `Mapping.SpaceBeforeColonExample` | reddit-crosspost-plugin.php:191-193 | in `tech :x` the category is "tech " and not "tech" |
| `Mapping.EmptyPieceExample` | reddit-crosspost-plugin.php:192 | `tech:a,,b` targets a, "" and b, keeping the empty piece |
| `Mapping.DuplicatesKeptExample` | reddit-crosspost-plugin.php:194-201 | a subreddit reached through two categories and also given as the manual subreddit is targeted three times |
| `Mapping.TrailingTrimCharsIgnored` | reddit-crosspost-plugin.php:189-191 | a line followed by trim characters, such as the carriage return a CRLF line ending leaves, parses exactly as the line without them |
| `Mapping.CarriageReturnExample` | reddit-crosspost-plugin.php:189-191 | the mapping `tech:a` CR LF `news:b` with categories {tech, news} targets a then b, the carriage return being removed by the line trim |
| `PhpJson.Lookup` | reddit-crosspost-plugin.php:273-274 | the value under a key in an array decoded from an object, searched from the last member back |
| `PhpJson.Field` | reddit-crosspost-plugin.php:274 | an offset read `$v[key]`: only a decoded object has members; any other value has none |
| `PhpJson.IsSetPath` | reddit-crosspost-plugin.php:274 | `isset` over a chain of offsets: every step exists and the final value is not null; a true result on a non-empty path means the value is an object |
| `PhpJson.Truthy` | reddit-crosspost-plugin.php:171 | PHP truthiness of a decoded value: null, false, 0, "", "0", an empty list and an empty object are falsy |
| `PhpJson.LookupAbsent` | reddit-crosspost-plugin.php:273-274 | reading an offset of a decoded object finds nothing exactly when no member has that key |
| `PhpJson.LookupFindsLast` | reddit-crosspost-plugin.php:273-274 | reading an offset of a decoded object finds the value of the last member with that key, because `json_decode` lets a repeated key overwrite the earlier one |
| `RedditApi.DataUrl` | reddit-crosspost-plugin.php:274 | the value reached by reading `json`, then `data`, then `url` |
| `RedditApi.SubmitSucceeded` | reddit-crosspost-plugin.php:268-280 | a submit succeeded iff there was no transport error and the offsets `json`, `data`, `url` all exist with a non-null value |
| `RedditApi.AcceptedBodySucceeds` | reddit-crosspost-plugin.php:273-276 | a body of the shape Reddit documents for an accepted `api_type=json` submission is classified as a success |
| `RedditApi.ErrorsOnlyBodyFails` | reddit-crosspost-plugin.php:277-279 | a body with only `json.errors` is classified as a failure |
| `RedditApi.BodyWithoutJsonFails` | reddit-crosspost-plugin.php:273-279 | a body that is not an object, or has no `json` member, is a failure |
| `RedditApi.LastJsonMemberDecides` | reddit-crosspost-plugin.php:273-274 | when the body repeats `json`, the last occurrence alone decides |
| `RedditApi.GetOption` | reddit-crosspost-plugin.php:169 | `get_option`: the stored value, or `false` when the option was never stored |
| `RedditApi.RefreshTokenIn` | reddit-crosspost-plugin.php:88 | `$body['refresh_token']`: the member's value, or null when the body has none |
| `RedditApi.AccessTokenIn` | reddit-crosspost-plugin.php:79-85 | a token response carries a token iff the transport succeeded and `access_token` is set and non-null |
| `RedditApi.HandleOAuthResponse` | reddit-crosspost-plugin.php:79-92 | with an access token, both token options are written (the refresh token as sent, or null); without one, no option changes; other options are never touched |
| `RedditApi.GetAccessToken` | reddit-crosspost-plugin.php:236-247 | the request returns the access token when set, else `false` |
| `RedditApi.StoredTokenIsReturnedToken` | reddit-crosspost-plugin.php:84-88 | the token the authorization handler stores is the one the token request returns for the same response |
| `RedditApi.FailedExchangeKeepsToken` | reddit-crosspost-plugin.php:79-92 | a failed exchange leaves the stored tokens as they were |
| `RedditApi.TokenResponseStored` | reddit-crosspost-plugin.php:84-88 | Reddit's token response stores the access token and the refresh token |
| `RedditApi.MissingRefreshStoresNull` | reddit-crosspost-plugin.php:88 | a response without `refresh_token` stores null as the refresh token |
| `RedditApi.ErrorBodyStoresNothing` | reddit-crosspost-plugin.php:84-92 | an error body stores nothing, and the token request then returns false |
| `Publisher.GatePasses` | reddit-crosspost-plugin.php:171-179 | the hook goes on past its two early exits exactly when the token is truthy and the post is enabled or has a manual subreddit |
| `Publisher.RequestFor` | reddit-crosspost-plugin.php:254-266 | one submit request: the bearer token, the post's title, permalink and excerpt, the target subreddit and kind "link" |
| `Publisher.Dispatch` | reddit-crosspost-plugin.php:211-216 | there is one attempt per target, in order; attempt i carries target i's request, and its verdict is the classification of the answer to call i |
| `Publisher.Publish` | reddit-crosspost-plugin.php:171-219 | the hook stops for lack of a token iff the token is falsy, and stops for nothing to post iff the token is truthy and both the enabled flag and the manual subreddit are empty |
| `Publisher.CollectTargets` | reddit-crosspost-plugin.php:185-202 | the line-by-line loop builds exactly the resolved target list |
| `Publisher.LineTargets` | reddit-crosspost-plugin.php:190-196 | the body of the loop over lines adds a line's subreddits iff it has a colon and its category is one of the post's |
| `Publisher.SubmitAll` | reddit-crosspost-plugin.php:211-216 | the loop over targets makes exactly the described attempts |
| `Publisher.PublishToReddit` | reddit-crosspost-plugin.php:161-220 | the hook as a program makes exactly the calls of `Publish`; past the gate it submits to the target list |
| `Publisher.SubmittedAreTargets` | reddit-crosspost-plugin.php:205-219 | past the gate, the subreddits submitted to are the target list in order, duplicates included (none when it is empty); before the gate, none |
| `Publisher.EveryRequestDescribesPost` | reddit-crosspost-plugin.php:206-212 | every call carries the stored token, the post's title, permalink and excerpt, and kind "link"; call i's verdict is the classification of answer i |
| `Publisher.GateComesFirst` | reddit-crosspost-plugin.php:171-182 | when the gate closes, the outcome does not depend on the categories, the mapping or Reddit, and no call is made |
| `Publisher.EnabledIrrelevantPastGate` | reddit-crosspost-plugin.php:176-219 | past the gate, changing the enabled flag changes nothing |
| `Publisher.CallsIndependentOfAnswers` | reddit-crosspost-plugin.php:211-216 | which calls are made does not depend on Reddit's answers, so a failure does not stop later submits |
| `Publisher.ManualOnly` | reddit-crosspost-plugin.php:176-201 | with auto-posting off, an empty mapping and a manual subreddit, exactly one submit goes to that subreddit |
| `Publisher.NoMatchNoCall` | reddit-crosspost-plugin.php:193-218 | when no mapping line names one of the post's categories and there is no manual subreddit, no call is made |
| `Publisher.TwoLinePublish` | reddit-crosspost-plugin.php:176-216 | an enabled post in "tech" under the two-line mapping is submitted to programming and then coding (then its manual subreddit), every call carrying the stored token |
| `Publisher.AuthorisedPublish` | reddit-crosspost-plugin.php:84-219 | after a token response with a truthy token is handled, an enabled post in "tech" under the two-line mapping is submitted to programming and coding (then its manual subreddit) with that token |

## Left out

- Building the authorization URL and the redirect (lines 49-58): string formatting and an HTTP redirect, with no decision in them.
- The admin page, the settings registration, the meta box and its saving (lines 14-46 and 95-157): user-interface code and host calls.
- HTTP transport and JSON decoding. A response is a transport error or an already decoded value; undecodable text is represented by the null it decodes to.
- The request headers, the endpoint URLs, the client id and secret, and the `User-Agent`: they do not affect any decision. The bearer token is kept in each request.
- Logging (`error_log`): it has no effect on behaviour. The outcome's constructor tells which message would be logged.
- Host calls (`get_option`, `get_post_meta`, `wp_get_post_categories`, `get_the_title`, `get_permalink`, `wp_trim_words`, `get_the_excerpt`): their results are inputs. A missing post meta or mapping option reads as "", which PHP's `empty` treats exactly like the `false` that `get_option` returns.
- The submit request sends no `api_type`, so the shape of Reddit's answer cannot be read from the plugin. The example bodies use the `json` envelope Reddit documents for `api_type=json`; the classifier itself is defined for every decoded body.
- The unused `$image` argument of the submit function: it is not in the request body.
- Category matching uses exact string equality. PHP's `in_array` compares loosely, so under PHP 8 two numeric strings such as "1.0" and "1" also match. Category names that are numeric strings are not modelled.
- JSON numbers are integers: no float appears in any decision the plugin makes. Only lower-case identifier keys are looked up, so PHP's numeric-key normalisation never applies.
- `RedditApi.HandleOAuthResponse`: a missing `refresh_token` is stored as a JSON null. What WordPress makes of an `update_option` with null is host behaviour.
- Strings are sequences of characters, not bytes: `trim` and `explode` only look at ASCII characters, so this makes no difference here.
- Concurrency between two publishes, and `update_option` returning early when the value is unchanged: neither is observable in the model.
