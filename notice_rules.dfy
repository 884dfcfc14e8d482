/** The decisions the notice routes make (routes/notices.js:20-185), as pure
    functions over form values and over the sequence of stored records:
    required-field validation, status resolution and whitelisting, the record
    a create or an update writes, the auto-publish sweep, the list filter and
    ordering, and lookup by id. */
module NoticeRules {
  import opened NoticeSchema
  import opened Uploads

  /** The client errors the routes answer with: 400 for bad input, 404 for
      an unknown id. */
  datatype Failure = BadRequest | NotFound

  datatype Result<T> = Ok(value: T) | Err(error: Failure)

  function HttpStatus(f: Failure): (code: int)
    ensures code == 400 <==> f == BadRequest
    ensures code == 404 <==> f == NotFound
  {
    match f
    case BadRequest => 400
    case NotFound => 404
  }

  /** The multipart text fields of a create or update request; None is a
      field the client did not send. */
  datatype Form = Form(
    target: Option<string>,
    title: Option<string>,
    employeeId: Option<string>,
    employeeName: Option<string>,
    position: Option<string>,
    noticeType: Option<string>,
    publishDate: Option<string>,
    noticeBody: Option<string>)

  /** JavaScript's `!value` on a form field: undefined or the empty string. */
  predicate Blank(v: Option<string>)
  {
    v.None? || v.value == ""
  }

  /** Some of the seven required fields is blank (position is not required). */
  predicate MissingRequired(f: Form)
  {
    Blank(f.target) || Blank(f.title) || Blank(f.employeeId) || Blank(f.employeeName) ||
    Blank(f.noticeType) || Blank(f.publishDate) || Blank(f.noticeBody)
  }

  /** Only the exact hint "Draft" relaxes validation on create. */
  predicate IsDraftHint(hint: Option<string>)
  {
    hint == Some("Draft")
  }

  /** The status a new notice is saved with: Draft for the hint "Draft",
      Unpublished for any other hint, "Published" included. */
  function ResolveStatus(hint: Option<string>): (s: Status)
    ensures s == Draft <==> IsDraftHint(hint)
    ensures s != Published
  {
    if IsDraftHint(hint) then Draft else Unpublished
  }

  /** The only values the status patch accepts. */
  function ParseStatus(value: Option<string>): (s: Option<Status>)
    ensures s.Some? <==> value == Some("Published") || value == Some("Unpublished")
    ensures s.Some? ==> s.value != Draft && value == Some(StatusName(s.value))
  {
    if value == Some("Published") then Some(Published)
    else if value == Some("Unpublished") then Some(Unpublished)
    else None
  }

  /** The stored publish date: absent for a blank field, otherwise the date
      `parsedDate` that the raw field denotes. */
  function StoredDate(raw: Option<string>, parsedDate: Timestamp): (d: Option<Timestamp>)
    ensures d.None? <==> Blank(raw)
    ensures d.Some? ==> d.value == parsedDate
  {
    if Blank(raw) then None else Some(parsedDate)
  }

  function FormContent(f: Form, parsedDate: Timestamp): Content
  {
    Content(f.target, f.title, f.employeeId, f.employeeName, f.position,
            f.noticeType, StoredDate(f.publishDate, parsedDate), f.noticeBody)
  }

  /** Attachment fields on create: the pair for the uploaded file, or both
      empty. */
  function AttachmentName(file: Option<Upload>): string
  {
    if file.Some? then file.value.originalName else ""
  }

  function AttachmentPath(file: Option<Upload>): string
  {
    if file.Some? then PublicPath(file.value) else ""
  }

  /** The outcome of POST /: the record inserted with id `id` at time `now`,
      or a 400 when validation fails. */
  function CreateOutcome(id: Id, f: Form, hint: Option<string>, parsedDate: Timestamp,
                         file: Option<Upload>, now: Timestamp): (r: Result<Notice>)
    ensures r.Err? <==> !IsDraftHint(hint) && MissingRequired(f)
    ensures r.Err? ==> r.error == BadRequest
    ensures r.Ok? ==> r.value.id == id && r.value.createdAt == now && r.value.updatedAt == now
    ensures r.Ok? ==> (r.value.status == Draft <==> IsDraftHint(hint)) && r.value.status != Published
    ensures r.Ok? ==>
              r.value.content.target == f.target && r.value.content.title == f.title &&
              r.value.content.employeeId == f.employeeId &&
              r.value.content.employeeName == f.employeeName &&
              r.value.content.position == f.position &&
              r.value.content.noticeType == f.noticeType &&
              r.value.content.noticeBody == f.noticeBody
    ensures r.Ok? ==> (r.value.content.publishDate.None? <==> Blank(f.publishDate))
    ensures r.Ok? && !Blank(f.publishDate) ==> r.value.content.publishDate == Some(parsedDate)
    ensures r.Ok? && file.Some? ==>
              r.value.attachmentName == file.value.originalName &&
              r.value.attachmentPath == PublicPath(file.value)
    ensures r.Ok? && file.None? ==> r.value.attachmentName == "" && r.value.attachmentPath == ""
  {
    if !IsDraftHint(hint) && MissingRequired(f) then Err(BadRequest)
    else Ok(Make(id, FormContent(f, parsedDate), AttachmentName(file), AttachmentPath(file),
                 Some(ResolveStatus(hint)), now))
  }

  /** The record after PUT /:id on a validated form. Every required field is
      replaced; position is replaced only when sent (an undefined key is
      dropped from the update); the attachment only when a file is sent; the
      status always goes back to Unpublished. */
  function Revise(n: Notice, f: Form, parsedDate: Timestamp, file: Option<Upload>,
                  now: Timestamp): (m: Notice)
    requires !MissingRequired(f)
    ensures m.id == n.id && m.createdAt == n.createdAt && m.updatedAt == now
    ensures m.status == Unpublished
    ensures m.content.target == f.target && m.content.title == f.title
    ensures m.content.employeeId == f.employeeId && m.content.employeeName == f.employeeName
    ensures m.content.noticeType == f.noticeType && m.content.noticeBody == f.noticeBody
    ensures m.content.publishDate == Some(parsedDate)
    ensures m.content.position == if f.position.Some? then f.position else n.content.position
    ensures file.None? ==>
              m.attachmentName == n.attachmentName && m.attachmentPath == n.attachmentPath
    ensures file.Some? ==>
              m.attachmentName == file.value.originalName &&
              m.attachmentPath == PublicPath(file.value)
  {
    var c := FormContent(f, parsedDate);
    var pos := if f.position.Some? then f.position else n.content.position;
    n.(content := c.(position := pos),
       status := Unpublished,
       updatedAt := now,
       attachmentName := if file.Some? then file.value.originalName else n.attachmentName,
       attachmentPath := if file.Some? then PublicPath(file.value) else n.attachmentPath)
  }

  /** A record the auto-publish sweep selects at time `now`. */
  predicate Due(n: Notice, now: Timestamp)
  {
    n.status == Unpublished && n.content.publishDate.Some? && n.content.publishDate.value <= now
  }

  /** The bulk update applied to one record by the sweep. */
  function Swept(n: Notice, now: Timestamp): Notice
  {
    if Due(n, now) then n.(status := Published, updatedAt := now) else n
  }

  /** The auto-publish sweep over the whole store, as one step. */
  function Sweep(rs: seq<Notice>, now: Timestamp): (r: seq<Notice>)
    ensures |r| == |rs|
    ensures forall i :: 0 <= i < |rs| && Due(rs[i], now) ==>
              r[i].status == Published && r[i].updatedAt == now
    ensures forall i :: 0 <= i < |rs| && !Due(rs[i], now) ==> r[i] == rs[i]
    ensures forall i :: 0 <= i < |rs| ==>
              r[i].id == rs[i].id && r[i].content == rs[i].content &&
              r[i].attachmentName == rs[i].attachmentName &&
              r[i].attachmentPath == rs[i].attachmentPath &&
              r[i].createdAt == rs[i].createdAt
    ensures forall i :: 0 <= i < |r| ==> !Due(r[i], now)
  {
    seq(|rs|, i requires 0 <= i < |rs| => Swept(rs[i], now))
  }

  /** Running the sweep twice at the same time changes nothing more. */
  lemma SweepIdempotent(rs: seq<Notice>, now: Timestamp)
    ensures Sweep(Sweep(rs, now), now) == Sweep(rs, now)
  {
  }

  /** A record published by a sweep at some time is published by a sweep at
      any later time, and a record with a later publish date is left alone. */
  lemma SweepMonotone(rs: seq<Notice>, earlier: Timestamp, later: Timestamp, i: nat)
    requires earlier <= later && i < |rs|
    ensures Sweep(rs, earlier)[i].status == Published ==> Sweep(rs, later)[i].status == Published
  {
  }

  /** The list filter: a blank query keeps everything, otherwise the status
      must equal the query string. */
  predicate Matches(n: Notice, q: Option<string>)
  {
    Blank(q) || StatusName(n.status) == q.value
  }

  /** The records a query selects, each as often as it is stored. */
  function Matching(rs: seq<Notice>, q: Option<string>): (r: seq<Notice>)
    ensures forall n :: multiset(r)[n] == if Matches(n, q) then multiset(rs)[n] else 0
    ensures Blank(q) ==> r == rs
  {
    if rs == [] then []
    else
      var tail := Matching(rs[1..], q);
      assert rs == [rs[0]] + rs[1..];
      if Matches(rs[0], q) then [rs[0]] + tail else tail
  }

  /** Ordered by createdAt, newest first. */
  ghost predicate NewestFirst(rs: seq<Notice>)
  {
    forall i, j :: 0 <= i < j < |rs| ==> rs[i].createdAt >= rs[j].createdAt
  }

  function Insert(n: Notice, rs: seq<Notice>): (r: seq<Notice>)
    requires NewestFirst(rs)
    ensures NewestFirst(r)
    ensures multiset(r) == multiset(rs) + multiset{n}
  {
    if rs == [] || n.createdAt >= rs[0].createdAt then
      PrependNewest(n, rs);
      [n] + rs
    else
      var tail := Insert(n, rs[1..]);
      assert rs == [rs[0]] + rs[1..];
      InsertBelow(rs[0], tail, rs[1..], n);
      PrependNewest(rs[0], tail);
      [rs[0]] + tail
  }

  /** Putting a record no older than the head in front keeps the order. */
  lemma PrependNewest(top: Notice, rs: seq<Notice>)
    requires NewestFirst(rs)
    requires rs != [] ==> rs[0].createdAt <= top.createdAt
    ensures NewestFirst([top] + rs)
  {
    var r := [top] + rs;
    forall i, j | 0 <= i < j < |r|
      ensures r[i].createdAt >= r[j].createdAt
    {
      if i == 0 {
        assert r[j] == rs[j - 1];
      } else {
        assert r[i] == rs[i - 1] && r[j] == rs[j - 1];
      }
    }
  }

  /** Every element of a permutation of `rs + [n]` is no newer than `top`
      when `rs` and `n` are not. */
  lemma InsertBelow(top: Notice, tail: seq<Notice>, rs: seq<Notice>, n: Notice)
    requires multiset(tail) == multiset(rs) + multiset{n}
    requires n.createdAt <= top.createdAt
    requires forall j :: 0 <= j < |rs| ==> rs[j].createdAt <= top.createdAt
    ensures forall j :: 0 <= j < |tail| ==> tail[j].createdAt <= top.createdAt
  {
    forall j | 0 <= j < |tail|
      ensures tail[j].createdAt <= top.createdAt
    {
      assert tail[j] in multiset(tail);
      if tail[j] != n {
        assert tail[j] in multiset(rs);
      }
    }
  }

  /** The sort applied by the query: a permutation, newest first. Records
      with equal createdAt come out in an order the store does not fix. */
  function SortNewestFirst(rs: seq<Notice>): (r: seq<Notice>)
    ensures NewestFirst(r)
    ensures multiset(r) == multiset(rs)
  {
    if rs == [] then []
    else
      assert rs == [rs[0]] + rs[1..];
      Insert(rs[0], SortNewestFirst(rs[1..]))
  }

  /** The response of GET /?status=q once the sweep has run. */
  function Listing(rs: seq<Notice>, q: Option<string>): seq<Notice>
  {
    SortNewestFirst(Matching(rs, q))
  }

  /** GET / returns exactly the swept records the query selects, each as
      often as stored, newest first. */
  lemma ListingExact(rs: seq<Notice>, now: Timestamp, q: Option<string>)
    ensures NewestFirst(Listing(Sweep(rs, now), q))
    ensures forall n :: multiset(Listing(Sweep(rs, now), q))[n] ==
                        if Matches(n, q) then multiset(Sweep(rs, now))[n] else 0
  {
  }

  /** A record due at `now` is returned by GET / as Published, for the query
      "Published" and for no query. */
  lemma ListingShowsDueAsPublished(rs: seq<Notice>, now: Timestamp, q: Option<string>, i: nat)
    requires i < |rs| && Due(rs[i], now)
    requires Blank(q) || q == Some("Published")
    ensures rs[i].(status := Published, updatedAt := now) in Listing(Sweep(rs, now), q)
  {
    var swept := Sweep(rs, now);
    var n := rs[i].(status := Published, updatedAt := now);
    assert swept[i] == n;
    assert n in multiset(swept);
    assert Matches(n, q);
    assert multiset(Listing(swept, q))[n] == multiset(Matching(swept, q))[n];
  }

  /** Index of the record with the given id, if any. */
  function Find(rs: seq<Notice>, id: Id): (k: Option<nat>)
    ensures k.Some? ==> k.value < |rs| && rs[k.value].id == id
    ensures k.Some? ==> forall i :: 0 <= i < k.value ==> rs[i].id != id
    ensures k.None? ==> forall i :: 0 <= i < |rs| ==> rs[i].id != id
  {
    if rs == [] then None
    else if rs[0].id == id then Some(0)
    else
      match Find(rs[1..], id)
      case None => None
      case Some(k) => Some(k + 1)
  }

  /** A record appended under a fresh id is the one found by that id. */
  lemma FindAppended(rs: seq<Notice>, n: Notice)
    requires forall i :: 0 <= i < |rs| ==> rs[i].id != n.id
    ensures Find(rs + [n], n.id) == Some(|rs|)
  {
    assert (rs + [n])[|rs|] == n;
  }

  /** The attachment fields are either both empty or the second is the
      public path of a stored upload. */
  predicate AttachmentPaired(n: Notice)
  {
    (n.attachmentName == "" && n.attachmentPath == "") || IsUploadPath(n.attachmentPath)
  }

  /** Ids are unique and below the next id the store hands out, and every
      record's attachment fields are paired. */
  ghost predicate StoreInvariant(rs: seq<Notice>, nextId: Id)
  {
    (forall i, j :: 0 <= i < j < |rs| ==> rs[i].id != rs[j].id) &&
    (forall i :: 0 <= i < |rs| ==> rs[i].id < nextId && AttachmentPaired(rs[i]))
  }

  lemma CreateKeepsInvariant(rs: seq<Notice>, nextId: Id, f: Form, hint: Option<string>,
                             parsedDate: Timestamp, file: Option<Upload>, now: Timestamp)
    requires StoreInvariant(rs, nextId)
    requires CreateOutcome(nextId, f, hint, parsedDate, file, now).Ok?
    ensures StoreInvariant(rs + [CreateOutcome(nextId, f, hint, parsedDate, file, now).value],
                           nextId + 1)
  {
    if file.Some? {
      PublicPathIsUploadPath(file.value);
    }
  }

  lemma SweepKeepsInvariant(rs: seq<Notice>, nextId: Id, now: Timestamp)
    requires StoreInvariant(rs, nextId)
    ensures StoreInvariant(Sweep(rs, now), nextId)
  {
  }

  lemma ReviseKeepsInvariant(rs: seq<Notice>, nextId: Id, i: nat, f: Form,
                             parsedDate: Timestamp, file: Option<Upload>, now: Timestamp)
    requires StoreInvariant(rs, nextId) && i < |rs| && !MissingRequired(f)
    ensures StoreInvariant(rs[i := Revise(rs[i], f, parsedDate, file, now)], nextId)
  {
    if file.Some? {
      PublicPathIsUploadPath(file.value);
    }
  }
}
