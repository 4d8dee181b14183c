/**
  The five announcement handlers over the announcement collection (a map
  from ObjectId to document) and the teacher directory (a set of usernames).
 */
module AnnouncementRouter {
  import opened Announcements

  const DeletedMessage: string := "Announcement deleted successfully"

  class Router {
    /** `datetime.fromisoformat` applied after "Z" is replaced by "+00:00"; None when it raises ValueError. */
    const parseIso: string -> Option<DateTime>
    /** `ObjectId(s)`; None when it raises. */
    const objectId: string -> Option<Oid>
    /** `str(ObjectId)`. */
    const render: Oid -> string

    var announcements: map<Oid, Announcement>
    var teachers: set<string>

    /** Every stored record parses, has no empty start date, and was created by a teacher. */
    ghost predicate Valid()
      reads this
    {
      forall k :: k in announcements ==> WellFormed(parseIso, teachers, announcements[k])
    }

    /** `ObjectId(str(oid)) == oid`: the id string a handler returns names the same document. */
    ghost predicate IdsRoundTrip()
    {
      forall k: Oid :: objectId(render(k)) == Some(k)
    }

    constructor (parseIso: string -> Option<DateTime>, objectId: string -> Option<Oid>,
                 render: Oid -> string, teachers: set<string>)
      requires forall k: Oid :: objectId(render(k)) == Some(k)
      ensures IdsRoundTrip()
      ensures this.parseIso == parseIso && this.objectId == objectId && this.render == render
      ensures this.teachers == teachers && announcements == map[]
      ensures Valid()
    {
      this.parseIso := parseIso;
      this.objectId := objectId;
      this.render := render;
      this.teachers := teachers;
      announcements := map[];
    }

    /** The loop that replaces each fetched document's `_id` by its string form. */
    method RenderIds(found: seq<Entry>) returns (r: seq<View>)
      ensures RenderedFrom(r, found, render)
    {
      r := [];
      var i := 0;
      while i < |found|
        invariant i <= |found|
        invariant RenderedFrom(r, found[..i], render)
      {
        r := r + [View(render(found[i].0), found[i].1)];
        i := i + 1;
      }
      assert found[..i] == found;
    }

    /** GET /announcements/active: the records active at `now`, newest first. */
    method GetActive(now: Clock) returns (r: seq<View>)
      ensures exists found :: QueryResult(found, announcements, ActiveAt(now.stamp)) && RenderedFrom(r, found, render)
    {
      var found := Find(announcements, ActiveAt(now.stamp));
      r := RenderIds(found);
    }

    /** GET /announcements/all: every record, newest first, for a teacher only. */
    method GetAll(username: string) returns (r: Result<seq<View>>)
      ensures username !in teachers ==> r == Err(Unauthorized)
      ensures username in teachers ==>
                r.Ok? && exists found :: QueryResult(found, announcements, All) && RenderedFrom(r.value, found, render)
    {
      if username !in teachers {
        return Err(Unauthorized);
      }
      var found := Find(announcements, All);
      var views := RenderIds(found);
      r := Ok(views);
    }

    /** POST /announcements/: validate, then insert one record under the store-assigned `newId`. */
    method Create(message: string, expiration: string, username: string, start: Option<string>,
                  now: Clock, newId: Oid) returns (r: Result<View>)
      requires newId !in announcements
      modifies this`announcements
      ensures var g := CreateGuard(username in teachers, parseIso, expiration, start, now.utc);
              (r.Err? <==> g.Fail?) && (r.Err? ==> r.error == g.error && announcements == old(announcements))
      ensures r.Ok? ==>
                var a := r.value.record;
                && r.value.id == render(newId)
                && announcements == old(announcements)[newId := a]
                && a.message == message && a.expirationDate == expiration
                && a.createdBy == username && a.createdAt == now.stamp
                && a.startDate == (if Given(start) then start else None)
      ensures old(Valid()) ==> Valid()
    {
      var g := CreateGuard(username in teachers, parseIso, expiration, start, now.utc);
      if g.Fail? {
        return Err(g.error);
      }
      var a := Announcement(message, expiration, None, username, now.stamp);
      if Given(start) {
        a := a.(startDate := start);
      }
      announcements := announcements[newId := a];
      r := Ok(View(render(newId), a));
    }

    /** PUT /announcements/{id}: validate, then replace message and expiration and set or clear the start date. */
    method Update(id: string, message: string, expiration: string, username: string,
                  start: Option<string>, now: Clock) returns (r: Result<View>)
      modifies this`announcements
      ensures var g := UpdateGuard(username in teachers, objectId(id), old(announcements), parseIso,
                                   expiration, start, now.utc);
              (r.Err? <==> g.Fail?) && (r.Err? ==> r.error == g.error && announcements == old(announcements))
      ensures r.Ok? ==>
                && objectId(id).Some? && objectId(id).value in old(announcements)
                && var k := objectId(id).value;
                   var before := old(announcements)[k];
                   && k in announcements
                   && var a := announcements[k];
                   && announcements == old(announcements)[k := a]
                   && a.message == message && a.expirationDate == expiration
                   && a.startDate == (if Given(start) then start else None)
                   && a.createdBy == before.createdBy && a.createdAt == before.createdAt
                   && r.value == View(render(k), a)
      ensures old(Valid()) ==> Valid()
    {
      var g := UpdateGuard(username in teachers, objectId(id), announcements, parseIso, expiration, start, now.utc);
      if g.Fail? {
        return Err(g.error);
      }
      var k := objectId(id).value;
      var a := Revised(announcements[k], message, expiration, start);
      ghost var before := announcements;
      if before[k].createdBy in teachers {
        RevisedWellFormed(parseIso, teachers, before[k], message, expiration, start, now.utc);
      }
      announcements := announcements[k := a];
      r := Ok(View(render(k), announcements[k]));
    }

    /** DELETE /announcements/{id}: remove one record, or report why not. */
    method Delete(id: string, username: string) returns (r: Result<string>)
      modifies this`announcements
      ensures var g := DeleteGuard(username in teachers, objectId(id), old(announcements));
              (r.Err? <==> g.Fail?) && (r.Err? ==> r.error == g.error && announcements == old(announcements))
      ensures r.Ok? ==>
                && r.value == DeletedMessage
                && objectId(id).Some? && objectId(id).value in old(announcements)
                && announcements == old(announcements) - {objectId(id).value}
                && |announcements| == |old(announcements)| - 1
      ensures old(Valid()) ==> Valid()
    {
      if username !in teachers {
        return Err(Unauthorized);
      }
      var oid := objectId(id);
      if oid.None? {
        return Err(InvalidId);
      }
      var deletedCount := 0;
      if oid.value in announcements {
        announcements := announcements - {oid.value};
        deletedCount := 1;
      }
      if deletedCount == 0 {
        return Err(NotFound);
      }
      r := Ok(DeletedMessage);
    }
  }
}
