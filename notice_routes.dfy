/** The five notice handlers of routes/notices.js as methods of an in-memory
    notice store. The store holds the records in insertion order and hands
    out ids from a counter; the clock reading of each request is a
    parameter `now`. */
module NoticeRoutes {
  import opened NoticeSchema
  import opened Uploads
  import opened NoticeRules

  class NoticeBoard {
    var records: seq<Notice>
    var nextId: Id

    ghost predicate Valid()
      reads this
    {
      StoreInvariant(records, nextId)
    }

    constructor ()
      ensures Valid() && records == [] && nextId == 0
    {
      records := [];
      nextId := 0;
    }

    /** POST /: validate (unless the hint is "Draft"), then insert. */
    method Create(f: Form, hint: Option<string>, parsedDate: Timestamp,
                  file: Option<Upload>, now: Timestamp) returns (r: Result<Notice>)
      requires Valid()
      modifies this
      ensures Valid()
      ensures r == CreateOutcome(old(nextId), f, hint, parsedDate, file, now)
      ensures r.Err? ==> records == old(records) && nextId == old(nextId)
      ensures r.Ok? ==> records == old(records) + [r.value] && nextId == old(nextId) + 1
    {
      r := CreateOutcome(nextId, f, hint, parsedDate, file, now);
      if r.Ok? {
        CreateKeepsInvariant(records, nextId, f, hint, parsedDate, file, now);
        records := records + [r.value];
        nextId := nextId + 1;
      }
    }

    /** GET /?status=q: run the auto-publish sweep, then return the selected
        records, newest first. */
    method List(q: Option<string>, now: Timestamp) returns (r: seq<Notice>)
      requires Valid()
      modifies this
      ensures Valid()
      ensures records == Sweep(old(records), now) && nextId == old(nextId)
      ensures r == Listing(records, q)
      ensures NewestFirst(r)
      ensures forall n :: multiset(r)[n] == if Matches(n, q) then multiset(records)[n] else 0
    {
      SweepKeepsInvariant(records, nextId, now);
      records := Sweep(records, now);
      r := Listing(records, q);
      ListingExact(old(records), now, q);
    }

    /** GET /:id. */
    method Get(id: Id) returns (r: Result<Notice>)
      requires Valid()
      ensures r.Ok? ==> r.value in records && r.value.id == id
      ensures r.Err? ==> r.error == NotFound && forall n :: n in records ==> n.id != id
    {
      match Find(records, id)
      case Some(i) => r := Ok(records[i]);
      case None => r := Err(NotFound);
    }

    /** PUT /:id: the form is validated before the id is looked up. */
    method Update(id: Id, f: Form, parsedDate: Timestamp, file: Option<Upload>,
                  now: Timestamp) returns (r: Result<Notice>)
      requires Valid()
      modifies this
      ensures Valid() && nextId == old(nextId)
      ensures MissingRequired(f) ==> r == Err(BadRequest) && records == old(records)
      ensures !MissingRequired(f) && Find(old(records), id).None? ==>
                r == Err(NotFound) && records == old(records)
      ensures !MissingRequired(f) && Find(old(records), id).Some? ==>
                var i := Find(old(records), id).value;
                records == old(records)[i := Revise(old(records)[i], f, parsedDate, file, now)] &&
                r == Ok(records[i])
    {
      if MissingRequired(f) {
        return Err(BadRequest);
      }
      match Find(records, id)
      case None =>
        r := Err(NotFound);
      case Some(i) =>
        ReviseKeepsInvariant(records, nextId, i, f, parsedDate, file, now);
        records := records[i := Revise(records[i], f, parsedDate, file, now)];
        r := Ok(records[i]);
    }

    /** PATCH /:id/status: the value is checked before the id is looked up;
        only the status (and the store's updatedAt) change. */
    method SetStatus(id: Id, value: Option<string>, now: Timestamp) returns (r: Result<Notice>)
      requires Valid()
      modifies this
      ensures Valid() && nextId == old(nextId)
      ensures ParseStatus(value).None? ==> r == Err(BadRequest) && records == old(records)
      ensures ParseStatus(value).Some? && Find(old(records), id).None? ==>
                r == Err(NotFound) && records == old(records)
      ensures ParseStatus(value).Some? && Find(old(records), id).Some? ==>
                var i := Find(old(records), id).value;
                records == old(records)[i := old(records)[i].(status := ParseStatus(value).value,
                                                              updatedAt := now)] &&
                r == Ok(records[i])
    {
      var s := ParseStatus(value);
      if s.None? {
        return Err(BadRequest);
      }
      match Find(records, id)
      case None =>
        r := Err(NotFound);
      case Some(i) =>
        records := records[i := records[i].(status := s.value, updatedAt := now)];
        r := Ok(records[i]);
    }
  }

  /** A notice created with an attachment is found again by its id, with the
      original file name and the public path of the stored file. */
  method CreateThenGet(board: NoticeBoard, f: Form, hint: Option<string>,
                       parsedDate: Timestamp, u: Upload, now: Timestamp)
      returns (created: Result<Notice>, fetched: Result<Notice>)
    requires board.Valid()
    modifies board
    ensures created.Ok? <==> IsDraftHint(hint) || !MissingRequired(f)
    ensures created.Ok? ==> fetched == created
    ensures created.Ok? ==> fetched.value.attachmentName == u.originalName &&
                            fetched.value.attachmentPath == PublicPath(u)
  {
    created := board.Create(f, hint, parsedDate, Some(u), now);
    fetched := board.Get(if created.Ok? then created.value.id else 0);
    if created.Ok? {
      FindAppended(old(board.records), created.value);
      assert board.records[|old(board.records)|] == created.value;
    }
  }
}
