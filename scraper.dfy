/** The data handling of python_script.py: saved browser cookies become the
    cookie map of the HTTP session, the category's topic list is read page
    by page, topics created inside the date window are fetched, and every
    post of a fetched topic becomes one output record carrying its reply
    count and whether it is the accepted answer. The network is a set of
    parameters: `pages[k]` is what fetching page `k` of the category gave,
    `authenticated(cookies)` is the outcome of the test request, `fetch(t)`
    is the topic's JSON or `None` when fetching it failed, and `extract`
    is the HTML-to-text step. */
module Scraper {
  import opened Util
  import opened Text

  const Host := "discourse.onlinedegree.iitm.ac.in"
  const BaseUrl := "https://" + Host

  // ---------------------------------------------------------------------
  // Cookies

  /** a saved browser cookie; `domain` may be missing */
  datatype Cookie = Cookie(name: string, value: string, domain: Option<string>)

  /** `BASE_URL.replace('https://', '').replace('http://', '')`, the text a
      cookie's domain must contain */
  function HostOf(url: string): string {
    RemoveAll(RemoveAll(url, "https://"), "http://")
  }

  /** text without a colon holds neither scheme */
  lemma NoScheme(s: string)
    requires ':' !in s
    ensures !Contains(s, "https://") && !Contains(s, "http://")
  {
    var secure, plain := "https://", "http://";
    assert secure[5] == ':' && plain[4] == ':';
    ContainsHas(s, secure, 5);
    ContainsHas(s, plain, 4);
  }

  /** stripping the scheme from `https://` and a host name gives the host */
  lemma StripScheme(host: string)
    requires ':' !in host
    ensures HostOf("https://" + host) == host
  {
    var url := "https://" + host;
    NoScheme(host);
    assert StartsWith(url, "https://") && url[8..] == host;
    RemoveAllAbsent(host, "https://");
    RemoveAllAbsent(host, "http://");
  }

  /** the host a kept cookie's domain must contain is the base URL's host */
  lemma HostOfBaseUrl()
    ensures HostOf(BaseUrl) == Host
  {
    assert ':' !in Host;
    StripScheme(Host);
  }

  /** the cookie is kept when its domain, `""` when missing, contains the host */
  predicate KeptCookie(c: Cookie) {
    Contains(c.domain.GetOr(""), HostOf(BaseUrl))
  }

  /** a cookie without a domain is never kept: `cookie.get('domain', '')`
      is empty, and the host is not */
  lemma MissingDomainDropped(name: string, value: string)
    ensures !KeptCookie(Cookie(name, value, None))
  {
    HostOfBaseUrl();
    NothingInEmpty(Host);
  }

  /** the `cookies_dict` the loop builds from the given cookies */
  function CookieJar(cs: seq<Cookie>): map<string, string> {
    if cs == [] then map[]
    else
      var jar := CookieJar(cs[..|cs| - 1]);
      var c := cs[|cs| - 1];
      if KeptCookie(c) then jar[c.name := c.value] else jar
  }

  /** what `load_cookies_for_requests` returns; `None` is a missing file */
  function CookiesOf(cookieFile: Option<seq<Cookie>>): map<string, string> {
    if cookieFile == None then map[] else CookieJar(cookieFile.value)
  }

  /** a name is in the jar exactly when some kept cookie has it */
  lemma {:induction false} CookieJarKeys(cs: seq<Cookie>, name: string)
    ensures name in CookieJar(cs) <==> exists k :: 0 <= k < |cs| && KeptCookie(cs[k]) && cs[k].name == name
  {
    if cs != [] {
      var init := cs[..|cs| - 1];
      CookieJarKeys(init, name);
      if exists k :: 0 <= k < |init| && KeptCookie(init[k]) && init[k].name == name {
        var k :| 0 <= k < |init| && KeptCookie(init[k]) && init[k].name == name;
        assert cs[k] == init[k];
      }
      if exists k :: 0 <= k < |cs| && KeptCookie(cs[k]) && cs[k].name == name {
        var k :| 0 <= k < |cs| && KeptCookie(cs[k]) && cs[k].name == name;
        if k < |init| {
          assert init[k] == cs[k];
        }
      }
    }
  }

  /** among kept cookies of one name, the last one's value is the one kept */
  lemma {:induction false} CookieJarLastWins(cs: seq<Cookie>, name: string)
    requires name in CookieJar(cs)
    ensures exists k :: (0 <= k < |cs| && KeptCookie(cs[k]) && cs[k].name == name
      && CookieJar(cs)[name] == cs[k].value
      && forall m :: k < m < |cs| ==> !(KeptCookie(cs[m]) && cs[m].name == name))
  {
    var init := cs[..|cs| - 1];
    var c := cs[|cs| - 1];
    if KeptCookie(c) && c.name == name {
      var k := |cs| - 1;
      assert KeptCookie(cs[k]) && cs[k].name == name && CookieJar(cs)[name] == cs[k].value;
    } else {
      CookieJarLastWins(init, name);
      var k :| 0 <= k < |init| && KeptCookie(init[k]) && init[k].name == name
        && CookieJar(init)[name] == init[k].value
        && forall m :: k < m < |init| ==> !(KeptCookie(init[m]) && init[m].name == name);
      assert cs[k] == init[k];
      forall m | k < m < |cs| ensures !(KeptCookie(cs[m]) && cs[m].name == name) {
        if m < |init| {
          assert cs[m] == init[m];
        }
      }
    }
  }

  /** `load_cookies_for_requests`: `cookieFile` is `None` when the cookie
      file does not exist */
  method LoadCookiesForRequests(cookieFile: Option<seq<Cookie>>) returns (cookies: map<string, string>)
    ensures cookies == CookiesOf(cookieFile)
    ensures cookieFile == None ==> cookies == map[]
    ensures cookieFile != None ==> forall name :: name in cookies <==>
      exists k :: 0 <= k < |cookieFile.value| && KeptCookie(cookieFile.value[k]) && cookieFile.value[k].name == name
  {
    cookies := map[];
    if cookieFile == None {
      return;
    }
    var cs := cookieFile.value;
    var i := 0;
    while i < |cs|
      invariant 0 <= i <= |cs|
      invariant cookies == CookieJar(cs[..i])
    {
      var cookie := cs[i];
      assert cs[..i + 1][..i] == cs[..i];
      if Contains(cookie.domain.GetOr(""), HostOf(BaseUrl)) {
        cookies := cookies[cookie.name := cookie.value];
      }
      i := i + 1;
    }
    assert cs[..i] == cs;
    forall name ensures name in cookies <==>
      exists k :: 0 <= k < |cs| && KeptCookie(cs[k]) && cs[k].name == name
    {
      CookieJarKeys(cs, name);
    }
  }

  // ---------------------------------------------------------------------
  // Dates

  /** a naive `datetime`; the model compares dates and never parses them */
  datatype DateTime = DateTime(year: int, month: int, day: int, hour: int, minute: int, second: int, microsecond: int)

  const DateFrom := DateTime(2025, 1, 1, 0, 0, 0, 0)
  const DateTo := DateTime(2025, 4, 14, 0, 0, 0, 0)

  function Fields(d: DateTime): (r: seq<int>)
    ensures |r| == 7
  {
    [d.year, d.month, d.day, d.hour, d.minute, d.second, d.microsecond]
  }

  /** lexicographic `<=` on equally long field lists */
  predicate LexLeq(a: seq<int>, b: seq<int>)
    requires |a| == |b|
  {
    a == [] || a[0] < b[0] || (a[0] == b[0] && LexLeq(a[1..], b[1..]))
  }

  /** `a <= b` on datetimes: field by field, the year first */
  predicate NotAfter(a: DateTime, b: DateTime) {
    LexLeq(Fields(a), Fields(b))
  }

  /** `DATE_FROM <= created_at <= DATE_TO`: inclusive at both ends */
  predicate InWindow(d: DateTime) {
    NotAfter(DateFrom, d) && NotAfter(d, DateTo)
  }

  lemma {:induction false} LexLeqTransitive(a: seq<int>, b: seq<int>, c: seq<int>)
    requires |a| == |b| == |c|
    requires LexLeq(a, b) && LexLeq(b, c)
    ensures LexLeq(a, c)
    decreases |a|
  {
    if a != [] && a[0] == b[0] == c[0] {
      LexLeqTransitive(a[1..], b[1..], c[1..]);
    }
  }

  lemma {:induction false} LexLeqTotal(a: seq<int>, b: seq<int>)
    requires |a| == |b|
    ensures LexLeq(a, b) || LexLeq(b, a)
    ensures LexLeq(a, b) && LexLeq(b, a) ==> a == b
    decreases |a|
  {
    if a != [] && a[0] == b[0] {
      LexLeqTotal(a[1..], b[1..]);
      if LexLeq(a, b) && LexLeq(b, a) {
        assert a == [a[0]] + a[1..] && b == [b[0]] + b[1..];
      }
    }
  }

  /** datetimes are totally ordered: any two compare, and two that compare
      both ways are equal */
  lemma NotAfterTotal(a: DateTime, b: DateTime)
    ensures NotAfter(a, b) || NotAfter(b, a)
    ensures NotAfter(a, b) && NotAfter(b, a) ==> a == b
  {
    LexLeqTotal(Fields(a), Fields(b));
    if NotAfter(a, b) && NotAfter(b, a) {
      assert Fields(a)[0] == Fields(b)[0] && Fields(a)[6] == Fields(b)[6];
    }
  }

  /** the window is an interval: a date between two dates in it is in it */
  lemma WindowIsInterval(a: DateTime, b: DateTime, c: DateTime)
    requires InWindow(a) && InWindow(c)
    requires NotAfter(a, b) && NotAfter(b, c)
    ensures InWindow(b)
  {
    LexLeqTransitive(Fields(DateFrom), Fields(a), Fields(b));
    LexLeqTransitive(Fields(b), Fields(c), Fields(DateTo));
  }

  lemma {:induction false} LexLeqReflexive(a: seq<int>)
    ensures LexLeq(a, a)
    decreases |a|
  {
    if a != [] {
      LexLeqReflexive(a[1..]);
    }
  }

  /** a common prefix does not change the comparison */
  lemma {:induction false} LexLeqCommonPrefix(p: seq<int>, a: seq<int>, b: seq<int>)
    requires |a| == |b|
    ensures LexLeq(p + a, p + b) <==> LexLeq(a, b)
    decreases |p|
  {
    if p != [] {
      assert (p + a)[1..] == p[1..] + a && (p + b)[1..] == p[1..] + b;
      assert (p + a)[0] == (p + b)[0];
      LexLeqCommonPrefix(p[1..], a, b);
    } else {
      assert p + a == a && p + b == b;
    }
  }

  /** both ends are inside the window, and the window ends at the first
      instant of 14 April 2025: one microsecond later is outside it */
  lemma WindowEnds()
    ensures InWindow(DateFrom) && InWindow(DateTo)
    ensures !InWindow(DateTime(2025, 4, 14, 0, 0, 0, 1))
    ensures !InWindow(DateTime(2024, 12, 31, 23, 59, 59, 999999))
  {
    LexLeqReflexive(Fields(DateFrom));
    LexLeqReflexive(Fields(DateTo));
    var from, to := Fields(DateFrom), Fields(DateTo);
    assert from[0] == to[0] && from[1..][0] < to[1..][0];
    assert LexLeq(from[1..], to[1..]);
    var later := DateTime(2025, 4, 14, 0, 0, 0, 1);
    var day := [2025, 4, 14, 0, 0, 0];
    assert Fields(later) == day + [1] && to == day + [0];
    LexLeqCommonPrefix(day, [1], [0]);
    var earlier := DateTime(2024, 12, 31, 23, 59, 59, 999999);
    assert Fields(earlier)[0] < from[0];
  }

  // ---------------------------------------------------------------------
  // Topic list pagination

  /** the fields of a topic-list entry the scraper reads; `created_at` is
      given already parsed */
  datatype TopicSummary = TopicSummary(
    id: int,
    slug: string,
    title: Option<string>,
    categoryId: Option<int>,
    tags: Option<seq<string>>,
    createdAt: DateTime)

  /** the outcome of fetching one page of the category: a request error,
      or the page's `topic_list.topics` (empty when absent) */
  datatype PageResult = FetchError | Page(topics: seq<TopicSummary>)

  /** the loop goes on past a page only when the page has topics */
  predicate Continues(p: PageResult) {
    p.Page? && p.topics != []
  }

  /** the number of the page where pagination stops: the first error or
      empty page; past the given pages every page counts as empty */
  function FirstStop(pages: seq<PageResult>): (r: nat)
    ensures r <= |pages|
    ensures forall k :: 0 <= k < r ==> Continues(pages[k])
    ensures r == |pages| || !Continues(pages[r])
  {
    if pages == [] || !Continues(pages[0]) then 0
    else
      var r := 1 + FirstStop(pages[1..]);
      assert forall k :: 1 <= k < r ==> pages[k] == pages[1..][k - 1];
      r
  }

  /** the topics of the given pages, page after page */
  function PagesTopics(pages: seq<PageResult>): seq<TopicSummary> {
    if pages == [] then []
    else
      var p := pages[|pages| - 1];
      PagesTopics(pages[..|pages| - 1]) + (if p.Page? then p.topics else [])
  }

  /** the pagination loop: `all_topics` and the page number it stopped at */
  method FetchAllTopics(pages: seq<PageResult>) returns (allTopics: seq<TopicSummary>, pageNum: nat)
    ensures pageNum == FirstStop(pages)
    ensures allTopics == PagesTopics(pages[..pageNum])
  {
    allTopics := [];
    pageNum := 0;
    while pageNum < |pages|
      invariant pageNum <= |pages|
      invariant forall k :: 0 <= k < pageNum ==> Continues(pages[k])
      invariant allTopics == PagesTopics(pages[..pageNum])
      decreases |pages| - pageNum
    {
      var page := pages[pageNum];
      if page.FetchError? {
        break;
      }
      if page.topics == [] {
        break;
      }
      assert pages[..pageNum + 1][..pageNum] == pages[..pageNum];
      allTopics := allTopics + page.topics;
      pageNum := pageNum + 1;
    }
    FirstStopUnique(pages, pageNum);
  }

  /** the stop page is the only page number with the stop property */
  lemma {:induction false} FirstStopUnique(pages: seq<PageResult>, n: nat)
    requires n <= |pages|
    requires forall k :: 0 <= k < n ==> Continues(pages[k])
    requires n == |pages| || !Continues(pages[n])
    ensures n == FirstStop(pages)
  {
  }

  /** every topic kept comes from a page before the stop page */
  lemma {:induction false} PagesTopicsFrom(pages: seq<PageResult>, t: TopicSummary)
    requires t in PagesTopics(pages)
    ensures exists k :: 0 <= k < |pages| && pages[k].Page? && t in pages[k].topics
  {
    var init := pages[..|pages| - 1];
    var p := pages[|pages| - 1];
    if t in PagesTopics(init) {
      PagesTopicsFrom(init, t);
      var k :| 0 <= k < |init| && init[k].Page? && t in init[k].topics;
      assert pages[k] == init[k];
    } else {
      assert p.Page? && t in p.topics;
    }
  }

  // ---------------------------------------------------------------------
  // Topics and post records

  /** the fields of a post of `post_stream.posts` the scraper reads;
      `mentioned` holds the usernames of `mentioned_users` */
  datatype RawPost = RawPost(
    id: int,
    postNumber: int,
    username: string,
    createdAt: string,
    updatedAt: Option<string>,
    replyTo: Option<int>,
    likeCount: Option<int>,
    mentioned: seq<string>,
    cooked: string)

  /** a JSON value where the scraper compares it with a post id */
  datatype Json = JNull | JInt(n: int) | JOther

  /** a fetched topic: its posts (empty when absent) and the two optional
      accepted-answer keys */
  datatype TopicData = TopicData(posts: seq<RawPost>, acceptedAnswer: Option<Json>, acceptedAnswerPostId: Option<Json>)

  /** a record of `filtered_posts` */
  datatype PostRecord = PostRecord(
    topicId: int,
    topicTitle: Option<string>,
    categoryId: Option<int>,
    tags: seq<string>,
    postId: int,
    postNumber: int,
    author: string,
    createdAt: string,
    updatedAt: Option<string>,
    replyTo: Option<int>,
    isReply: bool,
    replyCount: int,
    likeCount: int,
    isAcceptedAnswer: bool,
    mentionedUsers: seq<string>,
    url: string,
    content: string)

  /** the number of posts that reply to post number `n` */
  function ReplyCount(posts: seq<RawPost>, n: int): nat {
    if posts == [] then 0
    else ReplyCount(posts[..|posts| - 1], n) + (if posts[|posts| - 1].replyTo == Some(n) then 1 else 0)
  }

  /** a post number has replies exactly when some post replies to it */
  lemma {:induction false} ReplyCountPositive(posts: seq<RawPost>, n: int)
    ensures ReplyCount(posts, n) > 0 <==> exists k :: 0 <= k < |posts| && posts[k].replyTo == Some(n)
  {
    if posts != [] {
      var init := posts[..|posts| - 1];
      ReplyCountPositive(init, n);
      if exists k :: 0 <= k < |init| && init[k].replyTo == Some(n) {
        var k :| 0 <= k < |init| && init[k].replyTo == Some(n);
        assert posts[k] == init[k];
      }
      if exists k :: 0 <= k < |posts| && posts[k].replyTo == Some(n) {
        var k :| 0 <= k < |posts| && posts[k].replyTo == Some(n);
        if k < |init| {
          assert init[k] == posts[k];
        }
      }
    }
  }

  /** the `reply_counter` loop: a post with a reply target adds one to that
      target's count */
  method BuildReplyCounter(posts: seq<RawPost>) returns (counter: map<int, int>)
    ensures forall n :: n in counter <==> ReplyCount(posts, n) > 0
    ensures forall n :: n in counter ==> counter[n] == ReplyCount(posts, n)
  {
    counter := map[];
    var i := 0;
    while i < |posts|
      invariant 0 <= i <= |posts|
      invariant forall n :: n in counter <==> ReplyCount(posts[..i], n) > 0
      invariant forall n :: n in counter ==> counter[n] == ReplyCount(posts[..i], n)
    {
      var replyTo := posts[i].replyTo;
      assert posts[..i + 1][..i] == posts[..i];
      if replyTo != None {
        var n := replyTo.value;
        counter := counter[n := (if n in counter then counter[n] else 0) + 1];
      }
      i := i + 1;
    }
    assert posts[..i] == posts;
  }

  /** `topic_data.get("accepted_answer", topic_data.get("accepted_answer_post_id"))` */
  function AcceptedAnswerId(td: TopicData): Json {
    match td.acceptedAnswer
    case Some(v) => v
    case None => td.acceptedAnswerPostId.GetOr(JNull)
  }

  /** a post is the accepted answer when `accepted_answer` holds its id, or
      when `accepted_answer` is absent and `accepted_answer_post_id` does */
  lemma AcceptedAnswerFallback(td: TopicData, id: int)
    ensures AcceptedAnswerId(td) == JInt(id) <==>
      td.acceptedAnswer == Some(JInt(id)) || (td.acceptedAnswer == None && td.acceptedAnswerPostId == Some(JInt(id)))
  {
  }

  function PostUrl(topic: TopicSummary, post: RawPost): string {
    BaseUrl + "/t/" + topic.slug + "/" + IntToDecimal(topic.id) + "/" + IntToDecimal(post.postNumber)
  }

  /** the record appended for `post` of `topic` */
  function RecordOf(topic: TopicSummary, post: RawPost, replyCount: int, accepted: Json,
                    extract: string -> string): PostRecord
  {
    PostRecord(
      topic.id, topic.title, topic.categoryId, topic.tags.GetOr([]),
      post.id, post.postNumber, post.username, post.createdAt, post.updatedAt,
      post.replyTo, post.replyTo != None, replyCount, post.likeCount.GetOr(0),
      JInt(post.id) == accepted, post.mentioned, PostUrl(topic, post), extract(post.cooked))
  }

  /** the records of one fetched topic, one per post in post order */
  function TopicRecords(topic: TopicSummary, td: TopicData, extract: string -> string): (r: seq<PostRecord>)
    ensures |r| == |td.posts|
  {
    seq(|td.posts|, j requires 0 <= j < |td.posts| =>
      RecordOf(topic, td.posts[j], ReplyCount(td.posts, td.posts[j].postNumber), AcceptedAnswerId(td), extract))
  }

  /** a topic is processed when it was created inside the window and its
      fetch succeeded */
  predicate Processed(topic: TopicSummary, fetch: TopicSummary -> Option<TopicData>) {
    InWindow(topic.createdAt) && fetch(topic).Some?
  }

  /** the records of the processed topics, topic after topic */
  function Scraped(topics: seq<TopicSummary>, fetch: TopicSummary -> Option<TopicData>,
                   extract: string -> string): seq<PostRecord>
  {
    if topics == [] then []
    else
      var t := topics[|topics| - 1];
      Scraped(topics[..|topics| - 1], fetch, extract)
        + (if Processed(t, fetch) then TopicRecords(t, fetch(t).value, extract) else [])
  }

  /** every post of every processed topic has its record in the output */
  lemma {:induction false} ScrapedHasEveryPost(topics: seq<TopicSummary>, fetch: TopicSummary -> Option<TopicData>,
                                               extract: string -> string, k: nat, j: nat)
    requires k < |topics| && Processed(topics[k], fetch)
    requires j < |fetch(topics[k]).value.posts|
    ensures TopicRecords(topics[k], fetch(topics[k]).value, extract)[j] in Scraped(topics, fetch, extract)
  {
    var init := topics[..|topics| - 1];
    var t := topics[|topics| - 1];
    if k < |init| {
      assert init[k] == topics[k];
      ScrapedHasEveryPost(init, fetch, extract, k, j);
    } else {
      assert TopicRecords(t, fetch(t).value, extract)[j] in TopicRecords(t, fetch(t).value, extract);
    }
  }

  /** every output record is the record of some post of a processed topic */
  lemma {:induction false} ScrapedOnlyProcessed(topics: seq<TopicSummary>, fetch: TopicSummary -> Option<TopicData>,
                                                extract: string -> string, r: PostRecord)
    requires r in Scraped(topics, fetch, extract)
    ensures exists k, j :: (0 <= k < |topics| && Processed(topics[k], fetch)
      && 0 <= j < |fetch(topics[k]).value.posts|
      && r == TopicRecords(topics[k], fetch(topics[k]).value, extract)[j])
  {
    var init := topics[..|topics| - 1];
    var t := topics[|topics| - 1];
    if r in Scraped(init, fetch, extract) {
      ScrapedOnlyProcessed(init, fetch, extract, r);
      var k, j :| 0 <= k < |init| && Processed(init[k], fetch)
        && 0 <= j < |fetch(init[k]).value.posts|
        && r == TopicRecords(init[k], fetch(init[k]).value, extract)[j];
      assert topics[k] == init[k];
    } else {
      var rs := TopicRecords(t, fetch(t).value, extract);
      var j :| 0 <= j < |rs| && rs[j] == r;
      assert topics[|topics| - 1] == t;
    }
  }

  /** the inner `for post in posts` loop: appends one record per post,
      with its reply count read from `counter` (0 when absent) */
  method AppendTopicRecords(records: seq<PostRecord>, topic: TopicSummary, td: TopicData,
                            extract: string -> string) returns (records': seq<PostRecord>)
    ensures records' == records + TopicRecords(topic, td, extract)
  {
    var posts := td.posts;
    var accepted := AcceptedAnswerId(td);
    var counter := BuildReplyCounter(posts);
    records' := records;
    var j := 0;
    while j < |posts|
      invariant 0 <= j <= |posts|
      invariant records' == records + TopicRecords(topic, td, extract)[..j]
    {
      var post := posts[j];
      var replyCount := if post.postNumber in counter then counter[post.postNumber] else 0;
      assert replyCount == ReplyCount(posts, post.postNumber);
      ghost var rs := TopicRecords(topic, td, extract);
      assert rs[..j + 1] == rs[..j] + [RecordOf(topic, post, replyCount, accepted, extract)];
      records' := records' + [RecordOf(topic, post, replyCount, accepted, extract)];
      j := j + 1;
    }
    assert TopicRecords(topic, td, extract)[..j] == TopicRecords(topic, td, extract);
  }

  /** `scrape_posts_with_requests` without its file output: nothing
      (`None`) when there are no cookies or the test request fails;
      otherwise the records of every processed topic of the pages read */
  method ScrapePosts(cookieFile: Option<seq<Cookie>>, authenticated: map<string, string> -> bool,
                     pages: seq<PageResult>, fetch: TopicSummary -> Option<TopicData>,
                     extract: string -> string)
    returns (output: Option<seq<PostRecord>>)
    ensures output == None <==> CookiesOf(cookieFile) == map[] || !authenticated(CookiesOf(cookieFile))
    ensures output != None ==> output.value == Scraped(PagesTopics(pages[..FirstStop(pages)]), fetch, extract)
  {
    var cookies := LoadCookiesForRequests(cookieFile);
    if cookies == map[] {
      return None;
    }
    if !authenticated(cookies) {
      return None;
    }
    var allTopics, pageNum := FetchAllTopics(pages);
    var filtered: seq<PostRecord> := [];
    var i := 0;
    while i < |allTopics|
      invariant 0 <= i <= |allTopics|
      invariant filtered == Scraped(allTopics[..i], fetch, extract)
    {
      var topic := allTopics[i];
      assert allTopics[..i + 1][..i] == allTopics[..i];
      if InWindow(topic.createdAt) {
        var topicData := fetch(topic);
        if topicData.Some? {
          filtered := AppendTopicRecords(filtered, topic, topicData.value, extract);
        }
      }
      i := i + 1;
    }
    assert allTopics[..i] == allTopics;
    output := Some(filtered);
  }
}
