/** Publishing a post: the gate that decides whether anything is sent, the
    target list built from the mapping and the manual subreddit, and one
    submit per target, in order, each judged on its own. */
module Publisher {
  import opened PhpStrings
  import opened PhpJson
  import opened Mapping
  import opened RedditApi

  /** What the publish hook reads about the post: its title, permalink and
      excerpt (already shortened to 55 words by the host), the names of its
      categories, and the two per-post settings as stored in post meta
      ("" when never saved). */
  datatype Post = Post(
    title: string,
    permalink: string,
    excerpt: string,
    categories: seq<string>,
    manualSubreddit: string,
    enabled: string)

  /** The form fields of one call to Reddit's submit endpoint, with the
      bearer token that authorises it. */
  datatype SubmitRequest = SubmitRequest(
    token: Json,
    title: string,
    url: string,
    subreddit: string,
    kind: string,
    text: string)

  /** One submit call and whether it was judged successful. */
  datatype Attempt = Attempt(request: SubmitRequest, succeeded: bool)

  /** How a publish ends: stopped for lack of a token, stopped because
      auto-posting is off and no manual subreddit is set, no target found,
      or the submits that were made. */
  datatype PublishOutcome =
    | NoToken
    | NothingToPost
    | NoTargets
    | Dispatched(attempts: seq<Attempt>)

  /** Reddit, as seen by the plugin: the answer to the submit call with the
      given sequence number (0 for the first call of a publish). Numbering
      the calls lets the same subreddit named twice receive two different
      answers. */
  type Responder = (nat, SubmitRequest) -> HttpResponse

  const LinkKind: string := "link"

  /** The request submitted for one target subreddit. */
  function RequestFor(token: Json, post: Post, subreddit: string): SubmitRequest {
    SubmitRequest(token, post.title, post.permalink, subreddit, LinkKind, post.excerpt)
  }

  /** The two early exits of the hook, both decided before the post's
      categories are read: a falsy access token, and auto-posting switched
      off while the manual subreddit is empty. */
  predicate GatePasses(token: Json, post: Post) {
    Truthy(token) && !(IsFalsy(post.enabled) && IsFalsy(post.manualSubreddit))
  }

  /** One submit per target, in the order of the targets; a failed submit
      does not stop the ones after it. */
  function Dispatch(token: Json, post: Post, targets: seq<string>, respond: Responder): (attempts: seq<Attempt>)
    ensures |attempts| == |targets|
    ensures forall i :: 0 <= i < |targets| ==>
              && attempts[i].request == RequestFor(token, post, targets[i])
              && attempts[i].succeeded == SubmitSucceeded(respond(i, RequestFor(token, post, targets[i])))
    decreases |targets|
  {
    if |targets| == 0 then []
    else
      var n := |targets| - 1;
      var request := RequestFor(token, post, targets[n]);
      var earlier := Dispatch(token, post, targets[..n], respond);
      var attempts := earlier + [Attempt(request, SubmitSucceeded(respond(n, request)))];
      assert forall i :: 0 <= i < n ==> attempts[i] == earlier[i] && targets[..n][i] == targets[i];
      attempts
  }

  /** The publish hook for one post, given the stored access token and the
      stored mapping text. */
  function Publish(token: Json, mapText: string, post: Post, respond: Responder): (outcome: PublishOutcome)
    ensures outcome.NoToken? <==> !Truthy(token)
    ensures outcome.NothingToPost? <==> Truthy(token) && IsFalsy(post.enabled) && IsFalsy(post.manualSubreddit)
    ensures outcome.Dispatched? ==> GatePasses(token, post) && |outcome.attempts| > 0
  {
    if !Truthy(token) then NoToken
    else if IsFalsy(post.enabled) && IsFalsy(post.manualSubreddit) then NothingToPost
    else
      var targets := TargetSubreddits(mapText, post.categories, post.manualSubreddit);
      if |targets| == 0 then NoTargets else Dispatched(Dispatch(token, post, targets, respond))
  }

  /** The submit calls a publish made, in order. */
  function Requests(outcome: PublishOutcome): seq<SubmitRequest> {
    match outcome
    case Dispatched(attempts) => seq(|attempts|, i requires 0 <= i < |attempts| => attempts[i].request)
    case _ => []
  }

  /** The subreddits a publish submitted to, in order. */
  function Submitted(outcome: PublishOutcome): seq<string> {
    var calls := Requests(outcome);
    seq(|calls|, i requires 0 <= i < |calls| => calls[i].subreddit)
  }

  // ---------------------------------------------------------------------
  // The hook as written: a loop over the mapping lines, then a loop over
  // the targets.

  /** The target list built line by line, as the hook's `foreach` over the
      exploded mapping text does, with the manual subreddit appended. */
  method CollectTargets(mapText: string, categories: seq<string>, manual: string) returns (targets: seq<string>)
    ensures targets == TargetSubreddits(mapText, categories, manual)
  {
    targets := [];
    if !IsFalsy(mapText) {
      var lines := Split(mapText, '\n');
      var i := 0;
      while i < |lines|
        invariant 0 <= i <= |lines|
        invariant targets == Resolve(ParseLines(lines[..i]), categories)
      {
        var contribution := LineTargets(lines[i], categories);
        LineStep(lines, i, categories);
        targets := targets + contribution;
        i := i + 1;
      }
      assert lines[..i] == lines;
    }
    if !IsFalsy(manual) {
      targets := targets + [manual];
    }
  }

  /** The body of the hook's loop over mapping lines: a line with a colon
      is trimmed and cut into category and subreddit list, and the list is
      merged into the targets when the category is one of the post's. */
  method LineTargets(line: string, categories: seq<string>) returns (subreddits: seq<string>)
    ensures ':' !in line ==> subreddits == []
    ensures subreddits == match ParseLine(line)
                          case None => []
                          case Some(e) => if e.category in categories then e.subreddits else []
  {
    subreddits := [];
    if ':' in line {
      var fields := Split(Trim(line), ':');
      var category, list := fields[0], SecondField(fields);
      if category in categories {
        subreddits := TrimEach(Split(list, ','));
      }
    }
  }

  /** Resolving one more line extends the targets by that line's
      contribution. */
  lemma LineStep(lines: seq<string>, i: nat, categories: seq<string>)
    requires i < |lines|
    ensures Resolve(ParseLines(lines[..i + 1]), categories)
         == Resolve(ParseLines(lines[..i]), categories)
            + match ParseLine(lines[i])
              case None => []
              case Some(e) => if e.category in categories then e.subreddits else []
  {
    var front, step := lines[..i], [lines[i]];
    assert lines[..i + 1] == front + step;
    ParseLinesAppend(front, step);
    ResolveAppend(ParseLines(front), ParseLines(step), categories);
    SingleLineResolved(lines[i], categories);
  }

  /** A mapping of one line contributes that line's subreddits or nothing. */
  lemma SingleLineResolved(line: string, categories: seq<string>)
    ensures Resolve(ParseLines([line]), categories)
         == match ParseLine(line)
            case None => []
            case Some(e) => if e.category in categories then e.subreddits else []
  {
    assert [line][1..] == [];
    assert ParseLines([line]) == LineEntries(line);
  }

  /** The hook as a program: the gate, the target list, then one submit
      per target with its verdict recorded. It makes exactly the calls the
      functional description does. */
  method PublishToReddit(token: Json, mapText: string, post: Post, respond: Responder) returns (outcome: PublishOutcome)
    ensures outcome == Publish(token, mapText, post, respond)
    ensures GatePasses(token, post) ==> Submitted(outcome) == TargetSubreddits(mapText, post.categories, post.manualSubreddit)
  {
    if !Truthy(token) {
      return NoToken;
    }
    if IsFalsy(post.enabled) && IsFalsy(post.manualSubreddit) {
      return NothingToPost;
    }
    var targets := CollectTargets(mapText, post.categories, post.manualSubreddit);
    if |targets| == 0 {
      return NoTargets;
    }
    var attempts := SubmitAll(token, post, targets, respond);
    outcome := Dispatched(attempts);
    SubmittedAreTargets(token, mapText, post, respond);
  }

  /** The hook's `foreach` over the targets: one submit each, the verdict
      recorded and the loop continued whatever it was. */
  method SubmitAll(token: Json, post: Post, targets: seq<string>, respond: Responder) returns (attempts: seq<Attempt>)
    ensures attempts == Dispatch(token, post, targets, respond)
  {
    attempts := [];
    var i := 0;
    while i < |targets|
      invariant 0 <= i <= |targets|
      invariant attempts == Dispatch(token, post, targets[..i], respond)
    {
      var request := RequestFor(token, post, targets[i]);
      var response := respond(i, request);
      var success := SubmitSucceeded(response);
      assert targets[..i + 1][..i] == targets[..i];
      attempts := attempts + [Attempt(request, success)];
      i := i + 1;
    }
    assert targets[..i] == targets;
  }

  // ---------------------------------------------------------------------
  // Properties of a publish

  /** Past the gate, the subreddits submitted to are exactly the target
      list, in its order, duplicates included; before it, none. */
  lemma {:induction false} SubmittedAreTargets(token: Json, mapText: string, post: Post, respond: Responder)
    ensures Submitted(Publish(token, mapText, post, respond))
         == if GatePasses(token, post) then TargetSubreddits(mapText, post.categories, post.manualSubreddit) else []
  {
    var targets := TargetSubreddits(mapText, post.categories, post.manualSubreddit);
    if GatePasses(token, post) && |targets| > 0 {
      assert Publish(token, mapText, post, respond) == Dispatched(Dispatch(token, post, targets, respond));
      DispatchedSubmitsTargets(token, post, targets, respond);
    }
  }

  /** Dispatching submits to the targets, in order. */
  lemma DispatchedSubmitsTargets(token: Json, post: Post, targets: seq<string>, respond: Responder)
    ensures Submitted(Dispatched(Dispatch(token, post, targets, respond))) == targets
  {
    var outcome := Dispatched(Dispatch(token, post, targets, respond));
    assert |Submitted(outcome)| == |targets|;
    forall i | 0 <= i < |targets| ensures Submitted(outcome)[i] == targets[i] {
      assert Requests(outcome)[i] == outcome.attempts[i].request;
    }
  }

  /** Every call carries the stored token, the post's title, permalink and
      excerpt, and asks for a link post; the answer to call `i` is the
      verdict recorded for it. */
  lemma EveryRequestDescribesPost(token: Json, mapText: string, post: Post, respond: Responder)
    ensures var outcome := Publish(token, mapText, post, respond);
            forall i :: 0 <= i < |Requests(outcome)| ==>
              && Requests(outcome)[i].token == token
              && Requests(outcome)[i].title == post.title
              && Requests(outcome)[i].url == post.permalink
              && Requests(outcome)[i].text == post.excerpt
              && Requests(outcome)[i].kind == "link"
              && outcome.attempts[i].succeeded == SubmitSucceeded(respond(i, Requests(outcome)[i]))
  {
    var outcome := Publish(token, mapText, post, respond);
    if outcome.Dispatched? {
      forall i | 0 <= i < |Requests(outcome)| ensures Requests(outcome)[i] == outcome.attempts[i].request {
      }
    }
  }

  /** A falsy token or a disabled post without a manual subreddit stops the
      hook before the categories or the mapping are looked at: the outcome
      is the same whatever they are, and no call is made. */
  lemma GateComesFirst(token: Json, post: Post, mapText: string, otherMap: string, otherCategories: seq<string>,
                       respond: Responder, otherRespond: Responder)
    requires !GatePasses(token, post)
    ensures Publish(token, mapText, post, respond)
         == Publish(token, otherMap, post.(categories := otherCategories), otherRespond)
    ensures Requests(Publish(token, mapText, post, respond)) == []
  {
  }

  /** Past the gate the enabled flag plays no further part: a post with a
      manual subreddit publishes the same whether auto-posting is on or off,
      and so does an enabled post under any other truthy flag value. */
  lemma EnabledIrrelevantPastGate(token: Json, mapText: string, post: Post, enabled: string, respond: Responder)
    requires GatePasses(token, post) && GatePasses(token, post.(enabled := enabled))
    ensures Publish(token, mapText, post, respond) == Publish(token, mapText, post.(enabled := enabled), respond)
  {
    DispatchSameRequests(token, post, post.(enabled := enabled),
                         TargetSubreddits(mapText, post.categories, post.manualSubreddit), respond);
  }

  /** Dispatch reads only the title, permalink and excerpt of the post. */
  lemma {:induction false} DispatchSameRequests(token: Json, post: Post, other: Post, targets: seq<string>, respond: Responder)
    requires post.title == other.title && post.permalink == other.permalink && post.excerpt == other.excerpt
    ensures Dispatch(token, post, targets, respond) == Dispatch(token, other, targets, respond)
    decreases |targets|
  {
    if |targets| > 0 {
      DispatchSameRequests(token, post, other, targets[..|targets| - 1], respond);
    }
  }

  /** Failures do not stop the loop: which calls are made does not depend
      on Reddit's answers, only the recorded verdicts do. */
  lemma CallsIndependentOfAnswers(token: Json, mapText: string, post: Post, respond: Responder, otherRespond: Responder)
    ensures Requests(Publish(token, mapText, post, respond)) == Requests(Publish(token, mapText, post, otherRespond))
  {
    var a := Publish(token, mapText, post, respond);
    var b := Publish(token, mapText, post, otherRespond);
    if a.Dispatched? {
      assert |Requests(a)| == |Requests(b)|;
      forall i | 0 <= i < |Requests(a)| ensures Requests(a)[i] == Requests(b)[i] {
        assert Requests(a)[i] == a.attempts[i].request;
        assert Requests(b)[i] == b.attempts[i].request;
      }
    }
  }

  /** A manual subreddit alone is enough: with auto-posting off and an
      empty mapping, the post is submitted once, to that subreddit. */
  lemma ManualOnly(token: Json, post: Post, respond: Responder)
    requires Truthy(token) && IsFalsy(post.enabled) && !IsFalsy(post.manualSubreddit)
    ensures Submitted(Publish(token, "", post, respond)) == [post.manualSubreddit]
  {
    SubmittedAreTargets(token, "", post, respond);
  }

  /** A post none of whose categories names a mapping line, and that has
      no manual subreddit, makes no call. */
  lemma NoMatchNoCall(token: Json, mapText: string, post: Post, respond: Responder)
    requires IsFalsy(post.manualSubreddit)
    requires forall i :: 0 <= i < |ParseMapping(mapText)| ==> ParseMapping(mapText)[i].category !in post.categories
    ensures Requests(Publish(token, mapText, post, respond)) == []
  {
    var targets := TargetSubreddits(mapText, post.categories, post.manualSubreddit);
    if |targets| > 0 && !IsFalsy(mapText) {
      ResolveMembers(ParseMapping(mapText), post.categories, targets[0]);
    }
  }

  /** An enabled post in category "tech" under the mapping
      `tech:programming,coding` / `news:worldnews` is submitted to
      "programming" and then "coding", then to its manual subreddit when it
      has one, every call carrying the stored token. */
  lemma TwoLinePublish(token: Json, post: Post, respond: Responder,
                       tech: string, programming: string, coding: string, news: string, worldnews: string)
    requires Truthy(token) && !IsFalsy(post.enabled) && post.categories == [tech]
    requires IsPlainName(tech) && IsPlainName(programming) && IsPlainName(coding)
    requires IsPlainName(news) && IsPlainName(worldnews) && news != tech
    ensures var text := tech + ":" + (programming + "," + coding) + "\n" + (news + ":" + worldnews);
            var outcome := Publish(token, text, post, respond);
            && Submitted(outcome) == [programming, coding] + (if IsFalsy(post.manualSubreddit) then [] else [post.manualSubreddit])
            && forall i :: 0 <= i < |Requests(outcome)| ==> Requests(outcome)[i].token == token
  {
    var text := tech + ":" + (programming + "," + coding) + "\n" + (news + ":" + worldnews);
    var manual := if IsFalsy(post.manualSubreddit) then "x" else post.manualSubreddit;
    TwoLineExample(tech, programming, coding, news, worldnews, manual);
    SubmittedAreTargets(token, text, post, respond);
    EveryRequestDescribesPost(token, text, post, respond);
  }

  /** From authorisation to publishing: once a token response carrying a
      truthy access token has been handled, the stored token is that access
      token, and the two-line mapping above publishes with it. */
  lemma AuthorisedPublish(options: Options, resp: HttpResponse, post: Post, respond: Responder,
                          tech: string, programming: string, coding: string, news: string, worldnews: string)
    requires AccessTokenIn(resp).Some? && Truthy(AccessTokenIn(resp).value)
    requires !IsFalsy(post.enabled) && post.categories == [tech]
    requires IsPlainName(tech) && IsPlainName(programming) && IsPlainName(coding)
    requires IsPlainName(news) && IsPlainName(worldnews) && news != tech
    ensures var token := GetOption(HandleOAuthResponse(options, resp), AccessTokenOption);
            var text := tech + ":" + (programming + "," + coding) + "\n" + (news + ":" + worldnews);
            var outcome := Publish(token, text, post, respond);
            && token == AccessTokenIn(resp).value
            && Submitted(outcome) == [programming, coding] + (if IsFalsy(post.manualSubreddit) then [] else [post.manualSubreddit])
            && forall i :: 0 <= i < |Requests(outcome)| ==> Requests(outcome)[i].token == token
  {
    var token := GetOption(HandleOAuthResponse(options, resp), AccessTokenOption);
    assert token == AccessTokenIn(resp).value;
    TwoLinePublish(token, post, respond, tech, programming, coding, news, worldnews);
  }
}
