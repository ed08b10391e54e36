/** The blog-post edge function: the request decision order of its `serve`
    handler, input validation and sanitisation, and the rows it inserts. The
    database, the environment and the clock are inputs: `Db` holds what the
    queries would answer. */
module BlogApi {
  import opened Wrappers
  import opened Text
  import Slug
  import RateLimit
  import opened Edge

  /** A JSON value as the handler sees it. */
  datatype JsValue = Undefined | Null | Bool(b: bool) | Num(n: real) | Str(s: string) | Compound

  /** JavaScript truthiness (NaN is not modelled). */
  predicate Truthy(v: JsValue) {
    match v
    case Undefined => false
    case Null => false
    case Bool(b) => b
    case Num(n) => n != 0.0
    case Str(s) => |s| > 0
    case Compound => true
  }

  /** `v || null`. */
  function OrNull(v: JsValue): (r: JsValue)
    ensures Truthy(v) ==> r == v
    ensures !Truthy(v) ==> r == Null
  {
    if Truthy(v) then v else Null
  }

  /** `v ?? false`. */
  function OrFalse(v: JsValue): (r: JsValue)
    ensures r == Bool(false) <==> v.Undefined? || v.Null? || v == Bool(false)
    ensures !(v.Undefined? || v.Null?) ==> r == v
  {
    if v.Undefined? || v.Null? then Bool(false) else v
  }

  datatype Payload = Payload(title: JsValue, content: JsValue, excerpt: JsValue, category: JsValue,
                             author: JsValue, featuredImageUrl: JsValue, published: JsValue)

  datatype ValidationError = TitleRequired | ContentRequired

  const TITLE_LIMIT: nat := 200
  const EXCERPT_LIMIT: nat := 500

  /** A field passes when it is a string that is not blank after trimming. */
  predicate NonBlankString(v: JsValue) {
    v.Str? && |Trim(v.s)| > 0
  }

  /** The errors `validateInput(data)` reports, in order. */
  function Errors(p: Payload): (r: seq<ValidationError>)
    ensures TitleRequired in r <==> !NonBlankString(p.title)
    ensures ContentRequired in r <==> !NonBlankString(p.content)
    ensures |r| == 2 ==> r == [TitleRequired, ContentRequired]
    ensures |r| <= 2
  {
    BlankCheck(p.title);
    BlankCheck(p.content);
    (if !Truthy(p.title) || !p.title.Str? || |Trim(p.title.s)| == 0 then [TitleRequired] else [])
    + (if !Truthy(p.content) || !p.content.Str? || |Trim(p.content.s)| == 0 then [ContentRequired] else [])
  }

  /** The payload as `validateInput` leaves it: a non-empty string title or
      excerpt is trimmed and cut to 200 or 500 characters, whether or not
      validation passes; nothing else changes. */
  function Sanitise(p: Payload): (r: Payload)
    ensures p.title.Str? ==> r.title == Str(Take(Trim(p.title.s), TITLE_LIMIT))
    ensures !p.title.Str? ==> r.title == p.title
    ensures p.excerpt.Str? && |p.excerpt.s| > 0 ==> r.excerpt == Str(Take(Trim(p.excerpt.s), EXCERPT_LIMIT))
    ensures !(p.excerpt.Str? && |p.excerpt.s| > 0) ==> r.excerpt == p.excerpt
    ensures r.content == p.content && r.category == p.category && r.author == p.author
    ensures r.featuredImageUrl == p.featuredImageUrl && r.published == p.published
  {
    BlankCheck(p.title);
    var title := if Truthy(p.title) && p.title.Str? then Str(Take(Trim(p.title.s), TITLE_LIMIT)) else p.title;
    var excerpt := if Truthy(p.excerpt) && p.excerpt.Str? then Str(Take(Trim(p.excerpt.s), EXCERPT_LIMIT)) else p.excerpt;
    p.(title := title, excerpt := excerpt)
  }

  /** `validateInput(data)`: the sanitised payload and the error list. The
      input is valid exactly when title and content are non-blank strings,
      and sanitising a valid input keeps both non-blank. */
  function ValidateInput(p: Payload): (r: (Payload, seq<ValidationError>))
    ensures |r.1| == 0 <==> NonBlankString(p.title) && NonBlankString(p.content)
    ensures |r.1| == 0 ==> NonBlankString(r.0.title) && NonBlankString(r.0.content)
  {
    if p.title.Str? then
      TakeOfTrimNonBlank(p.title.s, TITLE_LIMIT);
      (Sanitise(p), Errors(p))
    else (Sanitise(p), Errors(p))
  }

  /** The source's three-part test (falsy, not a string, blank after trim)
      is the negation of `NonBlankString`. */
  lemma BlankCheck(v: JsValue)
    ensures (!Truthy(v) || !v.Str? || |Trim(v.s)| == 0) <==> !NonBlankString(v)
  {
    if v.Str? && |v.s| == 0 {
      assert |Trim(v.s)| <= |TrimStart(v.s)| <= 0;
    }
  }

  /** `ValidateInput` on its own output reports the same errors: the
      truncated trim of a non-blank string is still non-blank, so
      sanitising never turns a valid title into an invalid one. */
  lemma SanitisingKeepsVerdict(p: Payload)
    ensures ValidateInput(ValidateInput(p).0).1 == ValidateInput(p).1
  {
    var s := Sanitise(p);
    if p.title.Str? {
      TakeOfTrimNonBlank(p.title.s, TITLE_LIMIT);
    }
    assert NonBlankString(s.title) <==> NonBlankString(p.title);
    ErrorsByVerdict(s, p);
  }

  /** The error list depends only on whether title and content are non-blank strings. */
  lemma ErrorsByVerdict(a: Payload, b: Payload)
    requires NonBlankString(a.title) <==> NonBlankString(b.title)
    requires a.content == b.content
    ensures Errors(a) == Errors(b)
  {
    BlankCheck(a.title);
    BlankCheck(b.title);
  }

  lemma TakeOfTrimNonBlank(s: string, n: nat)
    requires n > 0
    ensures |Trim(Take(Trim(s), n))| > 0 <==> |Trim(s)| > 0
  {
    var t := Trim(s);
    var u := Take(t, n);
    TrimIsInfix(s);
    TrimEmptyIffAllSpace(u);
    if |t| > 0 {
      assert u[0] == t[0];
      assert !AllSpace(u);
    } else {
      assert |u| == 0;
    }
  }

  /** A sanitised title is at most 200 characters and, when valid, starts
      and ends outside white space if it was not cut. */
  lemma SanitisedTitleBounds(p: Payload)
    requires p.title.Str?
    ensures |ValidateInput(p).0.title.s| <= TITLE_LIMIT
    ensures |Trim(p.title.s)| <= TITLE_LIMIT ==> ValidateInput(p).0.title.s == Trim(p.title.s)
  {
  }

  datatype Request = Request(verb: string, forwardedFor: Option<string>,
                             authorization: Option<string>, body: Option<Payload>)

  /** What the database answers: existing post slugs, existing categories and
      authors by name, the id an insert would return (`None` when it fails),
      and whether the post insert fails. */
  datatype Db = Db(postSlugs: set<string>, categories: map<JsValue, int>, authors: map<JsValue, int>,
                   newCategoryId: Option<int>, newAuthorId: Option<int>, postInsertOk: bool)

  datatype Category = Category(id: int, name: string, slug: string)
  datatype Author = Author(id: int, name: string, email: string)

  datatype Post = Post(title: string, slug: string, content: JsValue, excerpt: JsValue,
                       categoryId: Option<int>, authorId: Option<int>, featuredImageUrl: JsValue,
                       published: JsValue, publishedAt: Option<int>)

  /** The response status, the limiter after the request, and the rows inserted. */
  datatype Outcome = Outcome(status: int, limiter: RateLimit.Table, newCategory: Option<Category>,
                             newAuthor: Option<Author>, post: Option<Post>)

  const AUTHOR_EMAIL_DOMAIN: string := "@audiencesynergy.com"

  /** Resolution of the optional category: `None` when creating it fails
      (an insert error, or a name that is not a string, whose slug cannot be
      computed); otherwise the id to store and the row inserted, if any. */
  function ResolveCategory(v: JsValue, db: Db): (r: Option<(Option<int>, Option<Category>)>)
    ensures !Truthy(v) ==> r == Some((None, None))
    ensures Truthy(v) && v in db.categories ==> r == Some((Some(db.categories[v]), None))
    ensures r.Some? && r.value.1.Some? ==>
      v.Str? && v !in db.categories && db.newCategoryId.Some? && r.value.1.value == Category(db.newCategoryId.value, v.s, Slug.CreateSlug(v.s))
      && r.value.0 == Some(r.value.1.value.id)
    ensures r.None? <==> Truthy(v) && v !in db.categories && (!v.Str? || db.newCategoryId.None?)
    ensures Truthy(v) && v.Str? && v !in db.categories && db.newCategoryId.Some? ==>
      r == Some((db.newCategoryId, Some(Category(db.newCategoryId.value, v.s, Slug.CreateSlug(v.s)))))
  {
    if !Truthy(v) then Some((None, None))
    else if v in db.categories then Some((Some(db.categories[v]), None))
    else if !v.Str? || db.newCategoryId.None? then None
    else Some((db.newCategoryId, Some(Category(db.newCategoryId.value, v.s, Slug.CreateSlug(v.s)))))
  }

  /** Resolution of the optional author, like the category; a new author's
      e-mail is the slug of the name at the site's domain. */
  function ResolveAuthor(v: JsValue, db: Db): (r: Option<(Option<int>, Option<Author>)>)
    ensures !Truthy(v) ==> r == Some((None, None))
    ensures Truthy(v) && v in db.authors ==> r == Some((Some(db.authors[v]), None))
    ensures r.Some? && r.value.1.Some? ==>
      v.Str? && v !in db.authors && db.newAuthorId.Some?
      && r.value.1.value == Author(db.newAuthorId.value, v.s, Slug.CreateSlug(v.s) + AUTHOR_EMAIL_DOMAIN)
      && r.value.0 == Some(r.value.1.value.id)
    ensures r.None? <==> Truthy(v) && v !in db.authors && (!v.Str? || db.newAuthorId.None?)
    ensures Truthy(v) && v.Str? && v !in db.authors && db.newAuthorId.Some? ==>
      r == Some((db.newAuthorId, Some(Author(db.newAuthorId.value, v.s, Slug.CreateSlug(v.s) + AUTHOR_EMAIL_DOMAIN))))
  {
    if !Truthy(v) then Some((None, None))
    else if v in db.authors then Some((Some(db.authors[v]), None))
    else if !v.Str? || db.newAuthorId.None? then None
    else Some((db.newAuthorId, Some(Author(db.newAuthorId.value, v.s, Slug.CreateSlug(v.s) + AUTHOR_EMAIL_DOMAIN))))
  }

  /** The post row built from a validated, sanitised payload. */
  function PostRecord(p: Payload, categoryId: Option<int>, authorId: Option<int>, now: int): (r: Post)
    requires p.title.Str?
    ensures r.title == p.title.s && r.slug == Slug.CreateSlug(p.title.s)
    ensures r.excerpt == OrNull(p.excerpt) && r.featuredImageUrl == OrNull(p.featuredImageUrl)
    ensures r.published == OrFalse(p.published)
    ensures r.publishedAt.Some? <==> Truthy(p.published)
    ensures r.publishedAt.Some? ==> r.publishedAt.value == now
    ensures r.content == p.content && r.categoryId == categoryId && r.authorId == authorId
  {
    Post(p.title.s, Slug.CreateSlug(p.title.s), p.content, OrNull(p.excerpt), categoryId, authorId,
         OrNull(p.featuredImageUrl), OrFalse(p.published), if Truthy(p.published) then Some(now) else None)
  }

  /** A readable body that passes validation and whose slug is still free:
      the request gets as far as resolving the category. */
  predicate Admissible(body: Option<Payload>, db: Db) {
    body.Some? && |Errors(body.value)| == 0 && Sanitise(body.value).title.Str?
    && Slug.CreateSlug(Sanitise(body.value).title.s) !in db.postSlugs
  }

  /** Everything after the token check: body, validation, slug conflict,
      category, author, insert. A category row created before a failing
      author or post insert stays in the database. */
  function CreatePost(body: Option<Payload>, db: Db, now: int, limiter: RateLimit.Table): (r: Outcome)
    ensures r.limiter == limiter
    ensures r.status in {201, 400, 409, 500}
    ensures r.status == 400 <==> body.Some? && |ValidateInput(body.value).1| > 0
    ensures r.status == 409 <==> (body.Some? && |ValidateInput(body.value).1| == 0
                                  && Slug.CreateSlug(ValidateInput(body.value).0.title.s) in db.postSlugs)
    ensures r.status == 201 <==>
      Admissible(body, db) && ResolveCategory(body.value.category, db).Some?
      && ResolveAuthor(body.value.author, db).Some? && db.postInsertOk
    ensures r.status == 500 <==>
      body.None?
      || (Admissible(body, db) && (ResolveCategory(body.value.category, db).None?
                                   || ResolveAuthor(body.value.author, db).None? || !db.postInsertOk))
    ensures r.post.Some? <==> r.status == 201
    ensures r.status == 201 ==>
      r.post.value == PostRecord(Sanitise(body.value), ResolveCategory(body.value.category, db).value.0,
                                 ResolveAuthor(body.value.author, db).value.0, now)
      && r.post.value.slug !in db.postSlugs
    ensures Admissible(body, db) && ResolveCategory(body.value.category, db).Some? ==>
      r.newCategory == ResolveCategory(body.value.category, db).value.1
    ensures !(Admissible(body, db) && ResolveCategory(body.value.category, db).Some?) ==> r.newCategory.None?
    ensures Admissible(body, db) && ResolveCategory(body.value.category, db).Some?
            && ResolveAuthor(body.value.author, db).Some? ==>
      r.newAuthor == ResolveAuthor(body.value.author, db).value.1
    ensures r.newAuthor.Some? ==>
      Admissible(body, db) && ResolveCategory(body.value.category, db).Some?
      && ResolveAuthor(body.value.author, db).Some?
  {
    if body.None? then Outcome(500, limiter, None, None, None)
    else
      var (p, errors) := ValidateInput(body.value);
      if |errors| > 0 then Outcome(400, limiter, None, None, None)
      else
        var slug := Slug.CreateSlug(p.title.s);
        if slug in db.postSlugs then Outcome(409, limiter, None, None, None)
        else
          match ResolveCategory(p.category, db)
          case None => Outcome(500, limiter, None, None, None)
          case Some((categoryId, newCategory)) =>
            match ResolveAuthor(p.author, db)
            case None => Outcome(500, limiter, newCategory, None, None)
            case Some((authorId, newAuthor)) =>
              if !db.postInsertOk then Outcome(500, limiter, newCategory, newAuthor, None)
              else Outcome(201, limiter, newCategory, newAuthor, Some(PostRecord(p, categoryId, authorId, now)))
  }

  /** The `serve` handler's decision order: OPTIONS, method, rate limit (10
      per minute per client IP), authorisation, then `CreatePost`. */
  function Serve(req: Request, token: Option<string>, now: int, limiter: RateLimit.Table, db: Db): (r: Outcome)
    ensures r.status == 200 <==> req.verb == "OPTIONS"
    ensures r.status == 405 <==> req.verb != "OPTIONS" && req.verb != "POST"
    ensures req.verb != "POST" ==> r.limiter == limiter && r.post.None?
    ensures req.verb == "POST" ==>
      var (allowed, limiter') := RateLimit.Check(limiter, ClientIp(req.forwardedFor), now,
                                                 RateLimit.BLOG_MAX_REQUESTS, RateLimit.WINDOW_MS);
      r.limiter == limiter'
      && (r.status == 429 <==> !allowed)
      && (r.status == 401 <==> allowed && !Authorised(req.authorization, token))
      && (allowed && Authorised(req.authorization, token) ==> r == CreatePost(req.body, db, now, limiter'))
  {
    if req.verb == "OPTIONS" then Outcome(200, limiter, None, None, None)
    else if req.verb != "POST" then Outcome(405, limiter, None, None, None)
    else
      var (allowed, limiter') := RateLimit.Check(limiter, ClientIp(req.forwardedFor), now,
                                                 RateLimit.BLOG_MAX_REQUESTS, RateLimit.WINDOW_MS);
      if !allowed then Outcome(429, limiter', None, None, None)
      else if !Authorised(req.authorization, token) then Outcome(401, limiter', None, None, None)
      else CreatePost(req.body, db, now, limiter')
  }

  /** A post is created only for an authorised POST inside the rate limit
      whose body passes validation. */
  lemma CreatedOnlyWhenAdmitted(req: Request, token: Option<string>, now: int, limiter: RateLimit.Table, db: Db)
    ensures Serve(req, token, now, limiter, db).status == 201 ==>
      req.verb == "POST" && Authorised(req.authorization, token) && req.body.Some?
      && NonBlankString(req.body.value.title) && NonBlankString(req.body.value.content)
    ensures Serve(req, token, now, limiter, db).status == 201 ==>
      var limiter' := RateLimit.Check(limiter, ClientIp(req.forwardedFor), now,
                                      RateLimit.BLOG_MAX_REQUESTS, RateLimit.WINDOW_MS).1;
      Serve(req, token, now, limiter, db) == CreatePost(req.body, db, now, limiter')
  {
    var r := Serve(req, token, now, limiter, db);
    if r.status == 201 {
      var (allowed, limiter') := RateLimit.Check(limiter, ClientIp(req.forwardedFor), now,
                                                 RateLimit.BLOG_MAX_REQUESTS, RateLimit.WINDOW_MS);
      assert r == CreatePost(req.body, db, now, limiter');
      assert |Errors(req.body.value)| == 0;
    }
  }

  /** A created post: its slug is the slug of the sanitised title, is a
      well-formed slug, and was free; the title is the non-blank trimmed
      title cut to 200 characters; `published_at` is set iff `published` is
      truthy, and `published` defaults to false. */
  lemma CreatedPostShape(req: Request, token: Option<string>, now: int, limiter: RateLimit.Table, db: Db)
    ensures Serve(req, token, now, limiter, db).status == 201 ==>
      req.body.Some? && req.body.value.title.Str?
    ensures Serve(req, token, now, limiter, db).status == 201 && req.body.Some? && req.body.value.title.Str? ==>
      var raw := req.body.value;
      var p := Serve(req, token, now, limiter, db).post.value;
      p.title == Take(Trim(raw.title.s), TITLE_LIMIT) && |p.title| <= TITLE_LIMIT && |Trim(p.title)| > 0
      && p.slug == Slug.CreateSlug(p.title) && Slug.IsSlug(p.slug) && p.slug !in db.postSlugs
      && p.content == raw.content
      && (p.publishedAt.Some? <==> Truthy(raw.published))
      && p.published == OrFalse(raw.published)
  {
    if Serve(req, token, now, limiter, db).status == 201 {
      CreatedOnlyWhenAdmitted(req, token, now, limiter, db);
      var raw := req.body.value;
      var q := Sanitise(raw);
      var p := Serve(req, token, now, limiter, db).post.value;
      assert p == PostRecord(q, p.categoryId, p.authorId, now);
      TakeOfTrimNonBlank(raw.title.s, TITLE_LIMIT);
      Slug.SlugIsSlug(q.title.s);
    }
  }

  /** The rate limit is applied before authorisation: every POST that gets
      past the limiter, authorised or not, uses up one request of its IP's
      window. */
  lemma UnauthorisedPostsUseQuota(req: Request, token: Option<string>, now: int, limiter: RateLimit.Table, db: Db)
    requires req.verb == "POST"
    requires !Authorised(req.authorization, token)
    ensures var r := Serve(req, token, now, limiter, db);
      var ip := ClientIp(req.forwardedFor);
      r.status in {401, 429}
      && (r.status == 401 ==>
            ip in r.limiter
            && (if RateLimit.Expired(limiter, ip, now) then r.limiter[ip].count == 1
                else r.limiter[ip].count == limiter[ip].count + 1))
  {
  }

  /** Replaying a request that created a post, once the post exists, is a
      conflict (if the limiter lets it through at all). */
  lemma ReplayIsConflict(req: Request, token: Option<string>, now: int, limiter: RateLimit.Table, db: Db, later: int)
    ensures var r := Serve(req, token, now, limiter, db);
      r.status == 201 ==>
      var db' := db.(postSlugs := db.postSlugs + {r.post.value.slug});
      var r2 := Serve(req, token, later, r.limiter, db');
      r2.status == 409 || r2.status == 429
  {
    var r := Serve(req, token, now, limiter, db);
    if r.status == 201 {
      var ip := ClientIp(req.forwardedFor);
      var (allowed, limiter') := RateLimit.Check(limiter, ip, now, RateLimit.BLOG_MAX_REQUESTS, RateLimit.WINDOW_MS);
      assert r == CreatePost(req.body, db, now, limiter');
      var db' := db.(postSlugs := db.postSlugs + {r.post.value.slug});
      var (allowed2, limiter2) := RateLimit.Check(r.limiter, ip, later, RateLimit.BLOG_MAX_REQUESTS, RateLimit.WINDOW_MS);
      var r2 := Serve(req, token, later, r.limiter, db');
      if allowed2 {
        assert r2 == CreatePost(req.body, db', later, limiter2);
        assert Slug.CreateSlug(Sanitise(req.body.value).title.s) in db'.postSlugs;
      }
    }
  }

  /** A new author's e-mail address has a well-formed slug as its local part. */
  lemma NewAuthorEmail(v: JsValue, db: Db)
    requires ResolveAuthor(v, db).Some? && ResolveAuthor(v, db).value.1.Some?
    ensures var a := ResolveAuthor(v, db).value.1.value;
      a.email == Slug.CreateSlug(a.name) + AUTHOR_EMAIL_DOMAIN && Slug.IsSlug(Slug.CreateSlug(a.name))
  {
    Slug.SlugIsSlug(v.s);
  }

  /** Once a newly created category's id is stored under its name, resolving
      the same name finds it and creates nothing. */
  lemma ResolveCategoryThenFound(v: JsValue, db: Db)
    requires ResolveCategory(v, db).Some? && ResolveCategory(v, db).value.1.Some?
    ensures var c := ResolveCategory(v, db).value.1.value;
      ResolveCategory(v, db.(categories := db.categories[v := c.id])) == Some((Some(c.id), None))
  {
  }

  /** The same for authors. */
  lemma ResolveAuthorThenFound(v: JsValue, db: Db)
    requires ResolveAuthor(v, db).Some? && ResolveAuthor(v, db).value.1.Some?
    ensures var a := ResolveAuthor(v, db).value.1.value;
      ResolveAuthor(v, db.(authors := db.authors[v := a.id])) == Some((Some(a.id), None))
  {
  }
}
