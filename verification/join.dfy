/** The join stage (`getter/snowball/schema.getter.py`).

    A cursor `index` walks the news-update queue without consuming it. For
    each announced article blob the stage reads the article and its comment
    documents, normalises their relative time strings, strips markup from
    their text, folds every author into a per-user aggregate of the news and
    comments they wrote, and writes one schema record per article.

    The clock, the date parser and formatters, the tokenizer and the decoded
    JSON/YAML documents are parameters. */
module Join {
  import opened Common
  import opened Text
  import opened Markup
  import Queue
  import opened News

  // ---------------------------------------------------------------------------
  // valid_date

  const Today: string := "今天"
  const MinutesAgo: string := "分钟前"
  const SecondsAgo: string := "秒前"
  const DefaultYear: string := "2018-"

  /** What `valid_date` and `parse_news` take from the clock and the time
      library. `parses` is "`time.strptime` accepts the fixed format";
      `today` is `time.strftime("%Y-%m-%d")`; `minutesAgo`/`secondsAgo`
      convert the remaining text with `int()` and format the clock minus that
      many units, `None` being the `ValueError` of `int()`; `epoch` is
      `time.mktime(time.strptime(s, '%Y-%m-%d %H:%M'))`, `None` when the
      string does not parse. */
  datatype DateContext = DateContext(
    parses: string -> bool,
    today: string,
    minutesAgo: string -> Option<string>,
    secondsAgo: string -> Option<string>,
    epoch: string -> Option<int>
  )

  /** `valid_date`: a well-formed date is kept; otherwise the first relative
      marker found (today, minutes ago, seconds ago — in that order) decides;
      anything else gets the year prefix. `None` is an uncaught `int()`
      failure. */
  function ValidDate(ctx: DateContext, s: string): (r: Option<string>)
    ensures ctx.parses(s) ==> r == Some(s)
    ensures r.None? ==> !ctx.parses(s) && !Contains(s, Today) && (Contains(s, MinutesAgo) || Contains(s, SecondsAgo))
  {
    if ctx.parses(s) then Some(s)
    else if Contains(s, Today) then Some(ctx.today + RemoveAll(s, Today))
    else if Contains(s, MinutesAgo) then ctx.minutesAgo(RemoveAll(s, MinutesAgo))
    else if Contains(s, SecondsAgo) then ctx.secondsAgo(RemoveAll(s, SecondsAgo))
    else Some(DefaultYear + s)
  }

  /** The relative forms, in their order of precedence: "today" wins over the
      other two markers and replaces itself by the current date (so the
      result is at least the marker's length shorter than today + input);
      "minutes ago" wins over "seconds ago"; the marker text is removed before
      the number is converted; a string with no marker gets the year. */
  lemma ValidDateCases(ctx: DateContext, s: string)
    requires !ctx.parses(s)
    ensures Contains(s, Today) ==>
              && ValidDate(ctx, s) == Some(ctx.today + RemoveAll(s, Today))
              && |ValidDate(ctx, s).value| <= |ctx.today| + |s| - |Today|
    ensures !Contains(s, Today) && Contains(s, MinutesAgo) ==>
              ValidDate(ctx, s) == ctx.minutesAgo(RemoveAll(s, MinutesAgo))
    ensures !Contains(s, Today) && !Contains(s, MinutesAgo) && Contains(s, SecondsAgo) ==>
              ValidDate(ctx, s) == ctx.secondsAgo(RemoveAll(s, SecondsAgo))
    ensures !Contains(s, Today) && !Contains(s, MinutesAgo) && !Contains(s, SecondsAgo) ==>
              ValidDate(ctx, s) == Some(DefaultYear + s)
  {
    RemoveAllLength(s, Today);
  }

  // ---------------------------------------------------------------------------
  // parse_user

  const UserContainer: string := "snowballuser"
  const TextContainer: string := "snowballtext"
  const SchemaContainer: string := "snowballschema"
  const SchemaUrl: string := "https://financestore.blob.core.windows.net/snowballschema/"
  const DefaultActiveWindow: int := 604800

  /** The part of an author's JSON the aggregate keeps. */
  datatype UserInfo = UserInfo(id: int, profile: string)

  /** The `user_<id>.json` aggregate: the schema urls of the news an author
      wrote and of the news they commented on. */
  datatype UserRecord = UserRecord(userId: int, websiteUrl: string, comments: set<string>, news: set<string>)

  datatype UserWrite = UserWrite(users: map<int, UserRecord>, url: string)

  function UserBlob(id: int): string {
    "user_" + IntToString(id) + ".json"
  }

  /** The stored aggregate, or empty sets for a new author. */
  function Prior(users: map<int, UserRecord>, id: int): UserRecord {
    if id in users then users[id] else UserRecord(id, "", {}, {})
  }

  /** Every author keeps at least what they had. */
  ghost predicate Extends(before: map<int, UserRecord>, after: map<int, UserRecord>) {
    forall id :: id in before ==>
      id in after && before[id].comments <= after[id].comments && before[id].news <= after[id].news
  }

  lemma ExtendsTransitive(a: map<int, UserRecord>, b: map<int, UserRecord>, c: map<int, UserRecord>)
    requires Extends(a, b) && Extends(b, c)
    ensures Extends(a, c)
  {
  }

  /** `parse_user`: read, union, write. Both stored sets survive; the url joins
      the comment set exactly when the kind is "c" and the news set exactly
      when it is "n"; no other author is touched. */
  function ParseUser(users: map<int, UserRecord>, user: UserInfo, url: string, kind: string): (r: UserWrite)
    ensures user.id in r.users && r.users - {user.id} == users - {user.id}
    ensures Extends(users, r.users)
    ensures var before := Prior(users, user.id);
            var after := r.users[user.id];
            && after.comments - before.comments <= {url}
            && after.news - before.news <= {url}
            && (url in after.comments <==> url in before.comments || kind == "c")
            && (url in after.news <==> url in before.news || kind == "n")
    ensures r.url == BlobUrl(UserContainer, UserBlob(user.id))
  {
    var before := Prior(users, user.id);
    var comments := if kind == "c" then before.comments + {url} else before.comments;
    var news := if kind == "c" then before.news else if kind == "n" then before.news + {url} else before.news;
    var record := UserRecord(user.id, "https://xueqiu.com/u" + user.profile, comments, news);
    UserWrite(users[user.id := record], BlobUrl(UserContainer, UserBlob(user.id)))
  }

  /** Recording the same url twice is recording it once. */
  lemma ParseUserIdempotent(users: map<int, UserRecord>, user: UserInfo, url: string, kind: string)
    ensures var once := ParseUser(users, user, url, kind).users;
            ParseUser(once, user, url, kind).users == once
  {
    var once := ParseUser(users, user, url, kind).users;
    assert Prior(once, user.id) == once[user.id];
  }

  /** The aggregate does not depend on the order two urls arrive in. */
  lemma ParseUserCommutes(users: map<int, UserRecord>, user: UserInfo, u1: string, k1: string, u2: string, k2: string)
    ensures ParseUser(ParseUser(users, user, u1, k1).users, user, u2, k2).users
         == ParseUser(ParseUser(users, user, u2, k2).users, user, u1, k1).users
  {
    var before := Prior(users, user.id);
    var a := ParseUser(users, user, u1, k1).users;
    var b := ParseUser(users, user, u2, k2).users;
    assert Prior(a, user.id) == a[user.id];
    assert Prior(b, user.id) == b[user.id];
    var ab := ParseUser(a, user, u2, k2).users[user.id];
    var ba := ParseUser(b, user, u1, k1).users[user.id];
    assert ab.comments == ba.comments;
    assert ab.news == ba.news;
    assert ab == ba;
  }

  // ---------------------------------------------------------------------------
  // parse_comments

  /** The fields of a comment document the stage reads. */
  datatype CommentDoc = CommentDoc(id: int, description: string, text: string, timeBefore: string, user: UserInfo)

  datatype CommentSchema = CommentSchema(commentId: int, description: string, text: string, postedAt: string,
                                         userUrl: string)

  /** The comment list of a schema, the latest comment time, and the user
      aggregates after the authors were folded in. */
  datatype Parsed = Parsed(comments: seq<CommentSchema>, latest: string, users: map<int, UserRecord>)

  function NewsUrl(id: string): string {
    SchemaUrl + id + ".json"
  }

  function Posts(cs: seq<CommentSchema>): (r: seq<string>)
    ensures |r| == |cs|
    ensures forall i :: 0 <= i < |cs| ==> r[i] == cs[i].postedAt
  {
    seq(|cs|, i requires 0 <= i < |cs| => cs[i].postedAt)
  }

  /** The running `latest = t if t > latest else latest`, starting from "". */
  function LatestOf(ts: seq<string>): string
    decreases |ts|
  {
    if |ts| == 0 then ""
    else
      var l := LatestOf(ts[..|ts| - 1]);
      if StrLess(l, ts[|ts| - 1]) then ts[|ts| - 1] else l
  }

  lemma LatestOfSnoc(ts: seq<string>, t: string)
    ensures LatestOf(ts + [t]) == if StrLess(LatestOf(ts), t) then t else LatestOf(ts)
  {
    assert (ts + [t])[..|ts|] == ts;
  }

  /** No time is later than the latest ... */
  lemma {:induction false} LatestUpper(ts: seq<string>)
    ensures forall i :: 0 <= i < |ts| ==> !StrLess(LatestOf(ts), ts[i])
    decreases |ts|
  {
    if |ts| > 0 {
      var p := ts[..|ts| - 1];
      var x := ts[|ts| - 1];
      var l := LatestOf(p);
      LatestUpper(p);
      forall i | 0 <= i < |ts|
        ensures !StrLess(LatestOf(ts), ts[i])
      {
        if i == |ts| - 1 {
          if StrLess(l, x) {
            StrLessIrreflexive(x);
          }
        } else {
          assert ts[i] == p[i];
          if StrLess(l, x) && StrLess(x, ts[i]) {
            StrLessTransitive(l, x, ts[i]);
          }
        }
      }
    }
  }

  /** ... and the latest is one of the times, or "" when there is none later
      than "". */
  lemma {:induction false} LatestAttained(ts: seq<string>)
    ensures LatestOf(ts) == "" || exists i :: 0 <= i < |ts| && ts[i] == LatestOf(ts)
    decreases |ts|
  {
    if |ts| > 0 {
      var p := ts[..|ts| - 1];
      LatestAttained(p);
      if LatestOf(ts) != "" && LatestOf(ts) != ts[|ts| - 1] {
        var i :| 0 <= i < |p| && p[i] == LatestOf(p);
        assert ts[i] == LatestOf(ts);
      }
    }
  }

  /** One document of the YAML stream; `None` is a null document, skipped. */
  function ParseDoc(ctx: DateContext, newsId: string, p: Parsed, doc: Option<CommentDoc>): Option<Parsed> {
    match doc
    case None => Some(p)
    case Some(d) =>
      match ValidDate(ctx, d.timeBefore)
      case None => None
      case Some(posted) =>
        var latest := if StrLess(p.latest, posted) then posted else p.latest;
        var u := ParseUser(p.users, d.user, NewsUrl(newsId), "c");
        var c := CommentSchema(d.id, CleanText(d.description), CleanText(d.text), posted, u.url);
        Some(Parsed(p.comments + [c], latest, u.users))
  }

  /** The document loop of `parse_comments`, as a fold from the left. */
  function ParseDocs(ctx: DateContext, newsId: string, users: map<int, UserRecord>,
                     docs: seq<Option<CommentDoc>>): (r: Option<Parsed>)
    ensures r.Some? ==> |r.value.comments| <= |docs|
    decreases |docs|
  {
    if |docs| == 0 then Some(Parsed([], "", users))
    else
      match ParseDocs(ctx, newsId, users, docs[..|docs| - 1])
      case None => None
      case Some(p) => ParseDoc(ctx, newsId, p, docs[|docs| - 1])
  }

  /** The non-null documents, in stream order. */
  function Present(docs: seq<Option<CommentDoc>>): (r: seq<CommentDoc>)
    ensures |r| <= |docs|
    decreases |docs|
  {
    if |docs| == 0 then []
    else
      var p := Present(docs[..|docs| - 1]);
      match docs[|docs| - 1]
      case None => p
      case Some(d) => p + [d]
  }

  /** The comment records are exactly the non-null documents, in order, with
      their text cleaned and their time normalised. */
  lemma {:induction false} ParseDocsComments(ctx: DateContext, newsId: string, users: map<int, UserRecord>,
                                             docs: seq<Option<CommentDoc>>)
    requires ParseDocs(ctx, newsId, users, docs).Some?
    ensures var p := ParseDocs(ctx, newsId, users, docs).value;
            var ds := Present(docs);
            && |p.comments| == |ds|
            && (forall k :: 0 <= k < |ds| ==>
                  && p.comments[k].commentId == ds[k].id
                  && p.comments[k].description == CleanText(ds[k].description)
                  && p.comments[k].text == CleanText(ds[k].text)
                  && ValidDate(ctx, ds[k].timeBefore) == Some(p.comments[k].postedAt))
    decreases |docs|
  {
    if |docs| > 0 {
      var front := docs[..|docs| - 1];
      ParseDocsComments(ctx, newsId, users, front);
      match docs[|docs| - 1]
      case None =>
      case Some(d) =>
        var q := ParseDocs(ctx, newsId, users, front).value;
        var p := ParseDocs(ctx, newsId, users, docs).value;
        assert Present(docs) == Present(front) + [d];
        assert p.comments == q.comments + [p.comments[|q.comments|]];
    }
  }

  /** The fold one step at a time: a stream that parses has a front that
      parses, and its last document is parsed on top of that front. */
  lemma ParseDocsSnoc(ctx: DateContext, newsId: string, users: map<int, UserRecord>, docs: seq<Option<CommentDoc>>)
    requires |docs| > 0 && ParseDocs(ctx, newsId, users, docs).Some?
    ensures var front := ParseDocs(ctx, newsId, users, docs[..|docs| - 1]);
            && front.Some?
            && ParseDocs(ctx, newsId, users, docs) == ParseDoc(ctx, newsId, front.value, docs[|docs| - 1])
  {
  }

  /** One document adds one record behind the others and raises the latest
      time by one comparison step. */
  lemma ParseDocAppends(ctx: DateContext, newsId: string, q: Parsed, d: CommentDoc)
    requires ParseDoc(ctx, newsId, q, Some(d)).Some?
    ensures var p := ParseDoc(ctx, newsId, q, Some(d)).value;
            var c := p.comments[|q.comments|];
            && p.comments == q.comments + [c]
            && p.latest == (if StrLess(q.latest, c.postedAt) then c.postedAt else q.latest)
  {
  }

  /** The latest time is the running maximum of the records' posting times. */
  lemma {:induction false} ParseDocsLatest(ctx: DateContext, newsId: string, users: map<int, UserRecord>,
                                           docs: seq<Option<CommentDoc>>)
    requires ParseDocs(ctx, newsId, users, docs).Some?
    ensures var p := ParseDocs(ctx, newsId, users, docs).value;
            p.latest == LatestOf(Posts(p.comments))
    decreases |docs|
  {
    if |docs| > 0 {
      var front := docs[..|docs| - 1];
      ParseDocsSnoc(ctx, newsId, users, docs);
      ParseDocsLatest(ctx, newsId, users, front);
      var q := ParseDocs(ctx, newsId, users, front).value;
      match docs[|docs| - 1]
      case None =>
      case Some(d) =>
        ParseDocAppends(ctx, newsId, q, d);
        var p := ParseDoc(ctx, newsId, q, Some(d)).value;
        var c := p.comments[|q.comments|];
        assert Posts(p.comments) == Posts(q.comments) + [c.postedAt];
        LatestOfSnoc(Posts(q.comments), c.postedAt);
    }
  }

  /** Folding the authors in never shrinks an aggregate. */
  lemma {:induction false} ParseDocsExtends(ctx: DateContext, newsId: string, users: map<int, UserRecord>,
                                            docs: seq<Option<CommentDoc>>)
    ensures ParseDocs(ctx, newsId, users, docs).Some? ==> Extends(users, ParseDocs(ctx, newsId, users, docs).value.users)
    decreases |docs|
  {
    if |docs| > 0 && ParseDocs(ctx, newsId, users, docs).Some? {
      var front := docs[..|docs| - 1];
      ParseDocsExtends(ctx, newsId, users, front);
      var q := ParseDocs(ctx, newsId, users, front).value;
      var p := ParseDocs(ctx, newsId, users, docs).value;
      ExtendsTransitive(users, q.users, p.users);
    }
  }

  /** The stage crashes on a comment stream exactly when some non-null
      document carries a time string whose number `int()` rejects. */
  lemma {:induction false} ParseDocsFails(ctx: DateContext, newsId: string, users: map<int, UserRecord>,
                                          docs: seq<Option<CommentDoc>>)
    ensures ParseDocs(ctx, newsId, users, docs).None? <==>
            exists k :: 0 <= k < |docs| && docs[k].Some? && ValidDate(ctx, docs[k].value.timeBefore).None?
    decreases |docs|
  {
    if |docs| > 0 {
      var front := docs[..|docs| - 1];
      ParseDocsFails(ctx, newsId, users, front);
      if exists k :: 0 <= k < |front| && front[k].Some? && ValidDate(ctx, front[k].value.timeBefore).None? {
        var k :| 0 <= k < |front| && front[k].Some? && ValidDate(ctx, front[k].value.timeBefore).None?;
        assert docs[k] == front[k];
      }
      if exists k :: 0 <= k < |docs| && docs[k].Some? && ValidDate(ctx, docs[k].value.timeBefore).None? {
        var k :| 0 <= k < |docs| && docs[k].Some? && ValidDate(ctx, docs[k].value.timeBefore).None?;
        if k < |front| {
          assert front[k] == docs[k];
        }
      }
    }
  }

  /** `parse_comments`: `None` for the blob is an absent `<id>.yaml`. It
      fails exactly when a non-null document's time is rejected, and never
      shrinks an aggregate. */
  function ParseComments(ctx: DateContext, newsId: string, users: map<int, UserRecord>,
                         stream: Option<seq<Option<CommentDoc>>>): (r: Option<Parsed>)
    ensures r.None? <==>
              stream.Some? &&
              exists k :: 0 <= k < |stream.value| && stream.value[k].Some? &&
                          ValidDate(ctx, stream.value[k].value.timeBefore).None?
    ensures r.Some? ==> Extends(users, r.value.users)
  {
    match stream
    case None => Some(Parsed([], "", users))
    case Some(docs) =>
      ParseDocsFails(ctx, newsId, users, docs);
      ParseDocsExtends(ctx, newsId, users, docs);
      ParseDocs(ctx, newsId, users, docs)
  }

  /** No comment blob means no comments and no latest time; otherwise the
      latest time is "" when there are no comments, no comment was posted
      later, and a non-empty latest time is some comment's. */
  lemma ParseCommentsLatest(ctx: DateContext, newsId: string, users: map<int, UserRecord>,
                            stream: Option<seq<Option<CommentDoc>>>)
    requires ParseComments(ctx, newsId, users, stream).Some?
    ensures stream.None? ==> ParseComments(ctx, newsId, users, stream) == Some(Parsed([], "", users))
    ensures var p := ParseComments(ctx, newsId, users, stream).value;
            && (|p.comments| == 0 ==> p.latest == "")
            && (forall k :: 0 <= k < |p.comments| ==> !StrLess(p.latest, p.comments[k].postedAt))
            && (p.latest == "" || exists k :: 0 <= k < |p.comments| && p.comments[k].postedAt == p.latest)
  {
    var p := ParseComments(ctx, newsId, users, stream).value;
    if stream.Some? {
      ParseDocsLatest(ctx, newsId, users, stream.value);
    }
    LatestUpper(Posts(p.comments));
    LatestAttained(Posts(p.comments));
    if p.latest != "" {
      var k :| 0 <= k < |Posts(p.comments)| && Posts(p.comments)[k] == p.latest;
      assert p.comments[k].postedAt == p.latest;
    }
  }

  /** Every commenter's aggregate lists this news among the ones they
      commented on. */
  lemma {:induction false} CommentersRecorded(ctx: DateContext, newsId: string, users: map<int, UserRecord>,
                                              docs: seq<Option<CommentDoc>>)
    requires ParseDocs(ctx, newsId, users, docs).Some?
    ensures var p := ParseDocs(ctx, newsId, users, docs).value;
            forall k :: 0 <= k < |Present(docs)| ==>
              Present(docs)[k].user.id in p.users && NewsUrl(newsId) in p.users[Present(docs)[k].user.id].comments
    decreases |docs|
  {
    if |docs| > 0 {
      var front := docs[..|docs| - 1];
      CommentersRecorded(ctx, newsId, users, front);
      var q := ParseDocs(ctx, newsId, users, front).value;
      var p := ParseDocs(ctx, newsId, users, docs).value;
      match docs[|docs| - 1]
      case None =>
      case Some(d) =>
        assert Present(docs) == Present(front) + [d];
        assert Extends(q.users, p.users);
    }
  }

  // ---------------------------------------------------------------------------
  // related_code

  /** The codes of the tokens found in the company dictionary: `code.add` over
      the tokenizer's output. */
  function RelatedCodes(tokens: seq<string>, dict: map<string, string>): (r: set<string>)
    ensures forall c :: c in r <==> exists i :: 0 <= i < |tokens| && tokens[i] in dict && dict[tokens[i]] == c
    decreases |tokens|
  {
    if |tokens| == 0 then {}
    else
      var rest := RelatedCodes(tokens[..|tokens| - 1], dict);
      var w := tokens[|tokens| - 1];
      if w in dict then rest + {dict[w]} else rest
  }

  // ---------------------------------------------------------------------------
  // parse_news

  /** The fields of an article JSON the stage reads. */
  datatype ArticleDoc = ArticleDoc(id: int, userId: int, title: string, target: string, timeBefore: string,
                                   text: string, user: UserInfo)

  /** A schema record; `Empty` is the "" written for an article blob that is
      not there. */
  datatype NewsSchema =
    | Empty
    | Schema(id: int, userId: int, title: string, websiteUrl: string, postedAt: string,
             comments: seq<CommentSchema>, activeWindow: int, relatedCodes: set<string>,
             textUrl: string, userUrl: string)

  /** The decoded source documents and the tokenizer. */
  datatype Sources = Sources(
    articles: map<string, ArticleDoc>,                  // `<id>.json` in the source container
    comments: map<string, seq<Option<CommentDoc>>>,     // `<id>.yaml` in the source container
    dict: map<string, string>,                          // word -> stock code
    tokenize: string -> seq<string>
  )

  datatype Joined = Joined(schema: NewsSchema, texts: map<string, string>, users: map<int, UserRecord>)

  /** The active window: a week when the article has no comment time, else the
      seconds from posting to the latest comment (`None`: a time the strict
      format rejects). */
  function ActiveWindow(ctx: DateContext, posted: string, latest: string): (r: Option<int>)
    ensures latest == "" ==> r == Some(DefaultActiveWindow)
    ensures latest != "" && r.Some? ==> ctx.epoch(posted).Some? && ctx.epoch(latest).Some?
  {
    if latest == "" then Some(DefaultActiveWindow)
    else
      match (ctx.epoch(posted), ctx.epoch(latest))
      case (Some(p), Some(l)) => Some(l - p)
      case _ => None
  }

  function TextBlob(id: string): string {
    "text_" + id + ".txt"
  }

  /** `parse_news` for the article id `id`; `None` is an uncaught error, which
      only an article that is there can raise. The only text blob written is
      the article's own, and a present article yields a schema with its ids
      and title. */
  function ParseNews(ctx: DateContext, id: string, src: Sources, users: map<int, UserRecord>,
                     texts: map<string, string>): (r: Option<Joined>)
    ensures r.None? ==> id in src.articles
    ensures r.Some? ==> r.value.texts - {TextBlob(id)} == texts - {TextBlob(id)}
    ensures r.Some? && id in src.articles ==>
              var a := src.articles[id];
              && r.value.schema.Schema?
              && r.value.schema.id == a.id && r.value.schema.userId == a.userId && r.value.schema.title == a.title
  {
    if id !in src.articles then Some(Joined(Empty, texts, users))
    else
      var a := src.articles[id];
      match ValidDate(ctx, a.timeBefore)
      case None => None
      case Some(posted) =>
        var stream := if id in src.comments then Some(src.comments[id]) else None;
        match ParseComments(ctx, id, users, stream)
        case None => None
        case Some(p) =>
          match ActiveWindow(ctx, posted, p.latest)
          case None => None
          case Some(window) =>
            var content := CleanText(a.text);
            var u := ParseUser(p.users, a.user, NewsUrl(id), "n");
            var schema := Schema(a.id, a.userId, a.title, "https://xueqiu.com" + a.target, posted, p.comments,
                                 window, RelatedCodes(src.tokenize(content), src.dict),
                                 BlobUrl(TextContainer, TextBlob(id)), u.url);
            Some(Joined(schema, texts[TextBlob(id) := content], u.users))
  }

  /** What a joined article promises: an absent article gives the empty
      schema and changes nothing; otherwise the stored text is the cleaned
      article text, the author's aggregate lists the news, every commenter's
      lists it as commented, no aggregate shrinks, and an article without
      comments gets the default window. */
  lemma ParseNewsSpec(ctx: DateContext, id: string, src: Sources, users: map<int, UserRecord>,
                      texts: map<string, string>)
    requires ParseNews(ctx, id, src, users, texts).Some?
    ensures var j := ParseNews(ctx, id, src, users, texts).value;
            && (id !in src.articles ==> j == Joined(Empty, texts, users))
            && (id in src.articles ==>
                  var a := src.articles[id];
                  && j.schema.Schema?
                  && j.texts == texts[TextBlob(id) := CleanText(a.text)]
                  && a.user.id in j.users && NewsUrl(id) in j.users[a.user.id].news
                  && Extends(users, j.users)
                  && (|j.schema.comments| == 0 ==> j.schema.activeWindow == DefaultActiveWindow)
                  && (forall k :: 0 <= k < |j.schema.comments| ==>
                        var cs := Present(src.comments[id]);
                        id in src.comments && |cs| == |j.schema.comments| &&
                        cs[k].user.id in j.users && NewsUrl(id) in j.users[cs[k].user.id].comments))
  {
    if id in src.articles {
      var a := src.articles[id];
      var posted := ValidDate(ctx, a.timeBefore).value;
      var stream := if id in src.comments then Some(src.comments[id]) else None;
      var p := ParseComments(ctx, id, users, stream).value;
      var u := ParseUser(p.users, a.user, NewsUrl(id), "n");
      ParseCommentsLatest(ctx, id, users, stream);
      if stream.Some? {
        ParseDocsComments(ctx, id, users, stream.value);
        ParseDocsExtends(ctx, id, users, stream.value);
        CommentersRecorded(ctx, id, users, stream.value);
      }
      ExtendsTransitive(users, p.users, u.users);
    }
  }

  // ---------------------------------------------------------------------------
  // get_news

  /** `news_id = blob.split(".")[0]`. */
  function BeforeDot(s: string): (r: string)
    ensures |r| <= |s|
    decreases |s|
  {
    if |s| == 0 || s[0] == '.' then "" else [s[0]] + BeforeDot(s[1..])
  }

  lemma {:induction false} BeforeDotPrefix(p: string, rest: string)
    requires forall i :: 0 <= i < |p| ==> p[i] != '.'
    ensures BeforeDot(p + "." + rest) == p
    decreases |p|
  {
    if |p| == 0 {
      assert (p + "." + rest)[0] == '.';
    } else {
      assert (p + "." + rest)[1..] == p[1..] + "." + rest;
      BeforeDotPrefix(p[1..], rest);
      assert p == [p[0]] + p[1..];
    }
  }

  /** The article stage names blobs `<id>.json`; the join stage recovers the
      id's text from that name. */
  lemma BlobNameRoundTrip(id: int)
    ensures BeforeDot(BlobName(id)) == IntToString(id)
  {
    BeforeDotPrefix(IntToString(id), "json");
    assert BlobName(id) == IntToString(id) + "." + "json";
  }

  /** The join stage's stores: the update queue it reads, its cursor and the
      cursor value saved in the schema hash, the schema blobs and the hash's
      blob -> url entries, the text blobs and the user aggregates. */
  datatype JoinWorld = JoinWorld(
    updates: seq<UpdateItem>,
    index: int,
    savedIndex: int,
    schemas: map<string, NewsSchema>,
    schemaUrls: map<string, string>,
    texts: map<string, string>,
    users: map<int, UserRecord>
  )

  datatype JoinStep = JoinStep(world: JoinWorld, crashed: bool)

  /** The two readings of `list(queue, index, index)` with a cursor that
      starts at 0 and counts up. As written the range is counted from the
      end the article stage pushes to, so the cursor walks from the newest
      item towards older ones and every push shifts what an index names;
      the reading the cursor evidently means counts in push order. */
  datatype Reading =
    | FromNewest   // the store's list index: 0 is the newest item
    | FromOldest   // the index-th item ever pushed

  function Read(reading: Reading, updates: seq<UpdateItem>, index: int): (r: Option<UpdateItem>)
    ensures r.Some? ==> r.value in updates
    ensures reading == FromOldest ==> (r.Some? <==> 0 <= index < |updates|)
  {
    match reading
    case FromNewest => Queue.At(updates, index)
    case FromOldest => if 0 <= index < |updates| then Some(updates[index]) else None
  }

  /** One iteration of `get_news`. `fault` is a connection or protocol error
      raised while the article was being joined; such an error is caught and
      the same index is tried again. Any other error ends the worker after the
      `finally` saved the index. The queue is only read, stored schemas are
      only added or replaced, and the cursor never moves back. */
  function GetNewsStep(reading: Reading, w: JoinWorld, ctx: DateContext, src: Sources, fault: bool): (r: JoinStep)
    ensures r.world.updates == w.updates
    ensures w.index <= r.world.index <= w.index + 1
    ensures w.schemas.Keys <= r.world.schemas.Keys
    ensures r.crashed ==> !fault && Read(reading, w.updates, w.index).Some?
    ensures r.world.index == w.index + 1 ==>
              && Read(reading, w.updates, w.index).Some?
              && r.world.schemas.Keys == w.schemas.Keys + {Read(reading, w.updates, w.index).value.blob}
  {
    match Read(reading, w.updates, w.index)
    case None => JoinStep(w, false)
    case Some(item) =>
      if fault then JoinStep(w.(savedIndex := w.index), false)
      else
        match ParseNews(ctx, BeforeDot(item.blob), src, w.users, w.texts)
        case None => JoinStep(w.(savedIndex := w.index), true)
        case Some(j) =>
          var next := w.index + 1;
          JoinStep(w.(schemas := w.schemas[item.blob := j.schema],
                      schemaUrls := w.schemaUrls[item.blob := BlobUrl(SchemaContainer, item.blob)],
                      texts := j.texts, users := j.users, index := next, savedIndex := next), false)
  }

  /** The cursor: the queue is only read; outside the queue nothing happens;
      otherwise the index moves by exactly one when the article was joined and
      stays for a retry when it was not, and the saved index always equals the
      index after the attempt. */
  lemma GetNewsCursor(reading: Reading, w: JoinWorld, ctx: DateContext, src: Sources, fault: bool)
    ensures var s := GetNewsStep(reading, w, ctx, src, fault);
            && s.world.updates == w.updates
            && (Read(reading, w.updates, w.index).None? ==> s == JoinStep(w, false))
            && (Read(reading, w.updates, w.index).Some? ==>
                  && s.world.savedIndex == s.world.index
                  && (s.world.index == w.index + 1 <==> !fault && !s.crashed)
                  && (s.world.index == w.index <==> fault || s.crashed))
  {
  }

  /** A joined article is stored under its update item's blob name, with the
      schema this stage computes for the id in that name. */
  lemma GetNewsStoresSchema(reading: Reading, w: JoinWorld, ctx: DateContext, src: Sources, item: UpdateItem)
    requires Read(reading, w.updates, w.index) == Some(item)
    requires ParseNews(ctx, BeforeDot(item.blob), src, w.users, w.texts).Some?
    ensures var s := GetNewsStep(reading, w, ctx, src, false);
            && !s.crashed
            && s.world.schemas == w.schemas[item.blob := ParseNews(ctx, BeforeDot(item.blob), src, w.users, w.texts).value.schema]
            && item.blob in s.world.schemaUrls
            && s.world.schemaUrls[item.blob] == BlobUrl(SchemaContainer, item.blob)
            && s.world.index == w.index + 1
  {
  }

  /** End to end: the update item the article stage pushes for article `id`
      is joined from the source document stored under that id's text. */
  lemma JoinsAnnouncedArticle(reading: Reading, w: JoinWorld, ctx: DateContext, src: Sources, container: string, id: int)
    requires Read(reading, w.updates, w.index) == Some(UpdateItem(container, BlobName(id), BlobUrl(container, BlobName(id))))
    requires ParseNews(ctx, IntToString(id), src, w.users, w.texts).Some?
    ensures BlobName(id) in GetNewsStep(reading, w, ctx, src, false).world.schemas
    ensures GetNewsStep(reading, w, ctx, src, false).world.schemas[BlobName(id)]
            == ParseNews(ctx, IntToString(id), src, w.users, w.texts).value.schema
  {
    BlobNameRoundTrip(id);
  }

  /** The article the stage announces last sits at index 0 of the update
      queue; another announcement moves it to index 1, so a cursor waiting at
      index 0 then sees the newer item. */
  lemma CursorAfterAnnouncement(w: JoinWorld, announced: UpdateItem, next: UpdateItem)
    ensures Read(FromNewest, Queue.Push(w.updates, announced), 0) == Some(announced)
    ensures Read(FromNewest, Queue.Push(Queue.Push(w.updates, announced), next), 1) == Some(announced)
  {
    Queue.AtAfterPush(w.updates, announced, 0);
    Queue.AtAfterPush(Queue.Push(w.updates, announced), next, 0);
  }

  /** As written, a cursor that has read every item (it stands one past the
      oldest) does not pick up the next announcement: after a push, its index
      names the oldest item, which is joined again, while the new item sits at
      index 0, behind the cursor. */
  lemma CaughtUpRejoinsOldest(w: JoinWorld, item: UpdateItem)
    requires 0 < |w.updates| == w.index
    ensures Read(FromNewest, w.updates, w.index).None?
    ensures Read(FromNewest, Queue.Push(w.updates, item), w.index) == Some(w.updates[0])
    ensures Read(FromNewest, Queue.Push(w.updates, item), 0) == Some(item)
  {
  }

  /** The as-written cursor on a concrete queue: after articles "1" and "2"
      were announced and both were joined, announcing "3" makes the cursor
      join "1" again, and "3" is never reached by counting up. */
  lemma CursorRereadsExample(c: string)
    ensures var a := UpdateItem(c, "1.json", "u1");
            var b := UpdateItem(c, "2.json", "u2");
            var n := UpdateItem(c, "3.json", "u3");
            && Read(FromNewest, [a, b], 0) == Some(b)
            && Read(FromNewest, [a, b], 1) == Some(a)
            && Read(FromNewest, [a, b, n], 2) == Some(a)
            && (forall i :: i >= 2 ==> Read(FromNewest, [a, b, n], i) != Some(n))
  {
  }

  /** With the push-order reading an index keeps naming the same item
      whatever is announced later, and a caught-up cursor reads exactly the
      next announcement. */
  lemma FromOldestStable(q: seq<UpdateItem>, x: UpdateItem, i: int)
    ensures 0 <= i < |q| ==> Read(FromOldest, Queue.Push(q, x), i) == Read(FromOldest, q, i)
    ensures Read(FromOldest, q, |q|).None?
    ensures Read(FromOldest, Queue.Push(q, x), |q|) == Some(x)
  {
  }

  /** With the push-order reading, a caught-up cursor joins the next
      announced article and stores its schema under that article's blob
      name. */
  lemma CaughtUpJoinsNext(w: JoinWorld, ctx: DateContext, src: Sources, item: UpdateItem)
    requires w.index == |w.updates|
    requires ParseNews(ctx, BeforeDot(item.blob), src, w.users, w.texts).Some?
    ensures var s := GetNewsStep(FromOldest, w.(updates := Queue.Push(w.updates, item)), ctx, src, false);
            && !s.crashed
            && s.world.index == w.index + 1
            && item.blob in s.world.schemas
            && s.world.schemas[item.blob] == ParseNews(ctx, BeforeDot(item.blob), src, w.users, w.texts).value.schema
  {
    FromOldestStable(w.updates, item, w.index);
  }
}
