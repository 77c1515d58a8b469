/**
 * The visitor-comments page (src/components/sections/Reviews.tsx): GitHub
 * issues carrying the `portfolio-comment` label become comments, the page
 * keeps a small loading/error/comments state, and it shows how many distinct
 * authors commented. The request and `response.json()` are replaced by the
 * reply they produced, and `JSON.parse(issue.body)` followed by reading its
 * `author` and `content` fields by the parameter `parseBody`.
 */
module Reviews {
  import opened Wrappers

  const GithubOwner: string := "KerYagciHTL"
  const GithubRepo: string := "kxrim-dev"
  const CommentLabel: string := "portfolio-comment"
  const LoadFailedMessage: string := "Failed to load comments. Please refresh the page."

  // ---------------------------------------------------------------------
  // Issue ids as text

  /** The decimal digit character for `d`. */
  function DigitChar(d: nat): (c: char)
    requires d < 10
    ensures '0' <= c <= '9' && c as int - '0' as int == d
  {
    ('0' as int + d) as char
  }

  predicate IsDigits(s: string)
  {
    forall i :: 0 <= i < |s| ==> '0' <= s[i] <= '9'
  }

  /** `issue.id.toString()` for the non-negative integer ids GitHub issues have. */
  function IdString(n: nat): (s: string)
    ensures |s| >= 1 && IsDigits(s)
    decreases n
  {
    if n < 10 then [DigitChar(n)] else IdString(n / 10) + [DigitChar(n % 10)]
  }

  /** The value of a string of decimal digits. */
  function DigitsValue(s: string): nat
    requires IsDigits(s)
  {
    if s == [] then 0 else DigitsValue(s[..|s| - 1]) * 10 + (s[|s| - 1] as int - '0' as int)
  }

  /** The decimal text of an id reads back as that id. */
  lemma {:induction false} IdStringRoundTrip(n: nat)
    ensures DigitsValue(IdString(n)) == n
    decreases n
  {
    if n >= 10 {
      IdStringRoundTrip(n / 10);
      var s := IdString(n);
      assert s[..|s| - 1] == IdString(n / 10);
    }
  }

  /** Distinct issues give distinct comment ids (they are React keys). */
  lemma IdStringInjective(a: nat, b: nat)
    requires a != b
    ensures IdString(a) != IdString(b)
  {
    IdStringRoundTrip(a);
    IdStringRoundTrip(b);
  }

  // ---------------------------------------------------------------------
  // Issue to comment

  /** The `user` object embedded in an issue. */
  datatype User = User(login: string, avatarUrl: string, htmlUrl: string)

  /** The fields of an issue that the page reads; `body` is null for an issue without text. */
  datatype Issue = Issue(id: nat, body: Option<string>, createdAt: int, user: User)

  datatype Author = Author(name: string, username: string, avatar: string, profileUrl: string)

  /** The `author` and `content` fields of an issue body in the required JSON format. */
  datatype Payload = Payload(author: Author, content: string)

  /** The `Comment` the page renders; `content` is the raw body, null included, when the body is not in the format. */
  datatype Comment = Comment(id: string, author: Author, content: Option<string>, timestamp: int)

  /** The author built from the issue's own user when the body does not parse. */
  function UserAuthor(u: User): (a: Author)
    ensures a.name == u.login && a.username == u.login
    ensures a.avatar == u.avatarUrl && a.profileUrl == u.htmlUrl
  {
    Author(u.login, u.login, u.avatarUrl, u.htmlUrl)
  }

  /**
   * What the `try` of the mapping produces: the body parsed, or None when it
   * throws (`JSON.parse` fails, or the parsed value is `null` and reading a
   * field of it fails; `JSON.parse(null)` is `null`).
   */
  function ParsedBody(issue: Issue, parseBody: string -> Option<Payload>): (r: Option<Payload>)
    ensures issue.body.None? ==> r.None?
    ensures issue.body.Some? ==> r == parseBody(issue.body.value)
  {
    match issue.body
    case None => None
    case Some(text) => parseBody(text)
  }

  /** One issue of the `issues.map(...)` in `loadComments`. */
  function ToComment(issue: Issue, parseBody: string -> Option<Payload>): (c: Comment)
    ensures c.id == IdString(issue.id) && c.timestamp == issue.createdAt
    ensures ParsedBody(issue, parseBody).Some? ==>
      c.author == ParsedBody(issue, parseBody).value.author &&
      c.content == Some(ParsedBody(issue, parseBody).value.content)
    ensures ParsedBody(issue, parseBody).None? ==>
      c.author == UserAuthor(issue.user) && c.content == issue.body
  {
    match ParsedBody(issue, parseBody)
    case Some(p) => Comment(IdString(issue.id), p.author, Some(p.content), issue.createdAt)
    case None => Comment(IdString(issue.id), UserAuthor(issue.user), issue.body, issue.createdAt)
  }

  /** `issues.map(...)`: one comment per issue, in the issues' order. */
  function ToComments(issues: seq<Issue>, parseBody: string -> Option<Payload>): (cs: seq<Comment>)
    ensures |cs| == |issues|
    ensures forall i :: 0 <= i < |cs| ==> cs[i] == ToComment(issues[i], parseBody)
  {
    if issues == [] then []
    else [ToComment(issues[0], parseBody)] + ToComments(issues[1..], parseBody)
  }

  /** Distinct issue ids give distinct comment ids. */
  lemma CommentIdsDistinct(issues: seq<Issue>, parseBody: string -> Option<Payload>)
    ensures var cs := ToComments(issues, parseBody);
      forall i, j :: 0 <= i < |cs| && 0 <= j < |cs| && issues[i].id != issues[j].id ==> cs[i].id != cs[j].id
  {
    var cs := ToComments(issues, parseBody);
    forall i, j | 0 <= i < |cs| && 0 <= j < |cs| && issues[i].id != issues[j].id
      ensures cs[i].id != cs[j].id
    {
      IdStringInjective(issues[i].id, issues[j].id);
    }
  }

  // ---------------------------------------------------------------------
  // The unique-visitor count

  /** `new Set(comments.map(c => c.author.username))`. */
  function Usernames(cs: seq<Comment>): (r: set<string>)
    ensures forall u :: u in r <==> exists i :: 0 <= i < |cs| && cs[i].author.username == u
  {
    if cs == [] then {}
    else
      assert forall i :: 1 <= i < |cs| ==> cs[i] == cs[1..][i - 1];
      {cs[0].author.username} + Usernames(cs[1..])
  }

  /** The "Unique Visitors" figure: never more than the number of comments, and at least one when there is a comment. */
  function UniqueVisitorCount(cs: seq<Comment>): (n: nat)
    ensures n <= |cs|
    ensures cs != [] ==> n >= 1
  {
    UsernamesBound(cs);
    |Usernames(cs)|
  }

  lemma {:induction false} UsernamesBound(cs: seq<Comment>)
    ensures |Usernames(cs)| <= |cs|
    ensures cs != [] ==> |Usernames(cs)| >= 1
  {
    if cs != [] {
      UsernamesBound(cs[1..]);
      assert cs[0].author.username in Usernames(cs);
    }
  }

  predicate DistinctUsernames(cs: seq<Comment>)
  {
    forall i, j :: 0 <= i < j < |cs| ==> cs[i].author.username != cs[j].author.username
  }

  /** With pairwise distinct usernames every comment adds a new one. */
  lemma {:induction false} DistinctUsernamesCount(cs: seq<Comment>)
    requires DistinctUsernames(cs)
    ensures |Usernames(cs)| == |cs|
  {
    if cs != [] {
      var rest := cs[1..];
      assert forall i :: 1 <= i < |cs| ==> cs[i] == rest[i - 1];
      assert DistinctUsernames(rest);
      DistinctUsernamesCount(rest);
      assert cs[0].author.username !in Usernames(rest);
    }
  }

  /** Two comments by one username make the count smaller than the number of comments. */
  lemma {:induction false} SharedUsernameCount(cs: seq<Comment>, i: int, j: int)
    requires 0 <= i < j < |cs| && cs[i].author.username == cs[j].author.username
    ensures |Usernames(cs)| < |cs|
  {
    var rest := cs[1..];
    assert forall k :: 1 <= k < |cs| ==> cs[k] == rest[k - 1];
    UsernamesBound(rest);
    if i == 0 {
      assert rest[j - 1].author.username == cs[0].author.username;
      assert Usernames(cs) == Usernames(rest);
    } else {
      SharedUsernameCount(rest, i - 1, j - 1);
    }
  }

  /** The count equals the number of comments exactly when no two comments share an author username. */
  lemma UniqueVisitorsAllDistinct(cs: seq<Comment>)
    ensures UniqueVisitorCount(cs) == |cs| <==> DistinctUsernames(cs)
  {
    if DistinctUsernames(cs) {
      DistinctUsernamesCount(cs);
    } else {
      var i, j :| 0 <= i < j < |cs| && cs[i].author.username == cs[j].author.username;
      SharedUsernameCount(cs, i, j);
    }
  }

  // ---------------------------------------------------------------------
  // The load state

  /** What the issues request came back with. */
  datatype IssuesReply =
    | NetworkError                                 // fetch rejected
    | Reply(ok: bool, issues: Option<seq<Issue>>)  // `response.ok` and the decoded list (None: `response.json()` threw)

  /** A reply that yields an issue list. */
  predicate Delivered(reply: IssuesReply)
    ensures reply.NetworkError? ==> !Delivered(reply)
    ensures reply.Reply? && (!reply.ok || reply.issues.None?) ==> !Delivered(reply)
  {
    reply.Reply? && reply.ok && reply.issues.Some?
  }

  /** The state `Reviews` keeps with `useState`. */
  class CommentsPage {
    var comments: seq<Comment>
    var loadingComments: bool
    var error: Option<string>

    /** The initial state: no comments, loading, no error. */
    constructor ()
      ensures comments == [] && loadingComments && error == None
    {
      comments := [];
      loadingComments := true;
      error := None;
    }

    /** The start of `loadComments`, before the request is awaited. */
    method BeginLoad()
      modifies this
      ensures loadingComments && error == None && comments == old(comments)
    {
      loadingComments := true;
      error := None;
    }

    /** The rest of `loadComments`, once the request has come back: the `try`, `catch` and `finally` branches. */
    method FinishLoad(reply: IssuesReply, parseBody: string -> Option<Payload>)
      modifies this
      ensures !loadingComments
      ensures Delivered(reply) ==> comments == ToComments(reply.issues.value, parseBody) && error == old(error)
      ensures !Delivered(reply) ==> comments == [] && error == Some(LoadFailedMessage)
    {
      if Delivered(reply) {
        comments := ToComments(reply.issues.value, parseBody);
      } else {
        error := Some(LoadFailedMessage);
        comments := [];
      }
      loadingComments := false;
    }

    /** `loadComments`: whatever the outcome, loading ends; a failure leaves no comments and the error message. */
    method LoadComments(reply: IssuesReply, parseBody: string -> Option<Payload>)
      modifies this
      ensures !loadingComments
      ensures Delivered(reply) ==> comments == ToComments(reply.issues.value, parseBody) && error == None
      ensures !Delivered(reply) ==> comments == [] && error == Some(LoadFailedMessage)
    {
      BeginLoad();
      FinishLoad(reply, parseBody);
    }

    /** The "Total Comments" figure. */
    function TotalComments(): (n: nat)
      reads this
      ensures n == 0 <==> comments == []
    {
      |comments|
    }

    /** The "Unique Visitors" figure. */
    function UniqueVisitors(): (n: nat)
      reads this
      ensures n <= TotalComments()
    {
      UniqueVisitorCount(comments)
    }
  }
}
