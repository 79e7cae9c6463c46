/** Session metadata as the store keeps it: the user-paused overlay applied on
    every read, and the spread-merge applied on every patch. */
module SessionMeta {
  import opened Base

  datatype Status = Running | Acknowledged | NeedsAttention | Completed | Paused | Failed | Disconnected

  datatype Reason = AttentionReason | CompletedReason | FailedReason | RunningReason | DisconnectedReason | ManualReason

  /** The fields the overlay and the pause rules read; every other field is in `other`. */
  datatype Meta = Meta(
    status: Status,
    priorityReason: Reason,
    attentionMatchedAt: Option<string>,
    attentionReason: Option<string>,
    userPaused: bool,
    other: map<string, string>,
    updatedAt: nat)

  /** A patch: an absent field keeps the old value. The attention fields and those in `other` may also
      be set to undefined, hence the second Option; the file then leaves them out. */
  datatype Patch = Patch(
    status: Option<Status>,
    priorityReason: Option<Reason>,
    attentionMatchedAt: Option<Option<string>>,
    attentionReason: Option<Option<string>>,
    userPaused: Option<bool>,
    other: map<string, Option<string>>)

  /** The statuses a user pause hides; the others are terminal. */
  predicate Live(s: Status) {
    s in {Running, Acknowledged, NeedsAttention, Paused}
  }

  /** What a read shows for a stored record. */
  function Overlay(m: Meta): Meta {
    if !m.userPaused || !Live(m.status) then m
    else m.(status := Paused, priorityReason := RunningReason, attentionMatchedAt := None, attentionReason := None)
  }

  function Or<T>(o: Option<T>, old_: T): T {
    if o.Some? then o.value else old_
  }

  /** The field of a record with this key after a patch; none if it has no such field then. */
  function Field(fields: map<string, string>, p: map<string, Option<string>>, key: string): Option<string> {
    if key in p then p[key] else if key in fields then Some(fields[key]) else None
  }

  function At(fields: map<string, string>, key: string): Option<string> {
    if key in fields then Some(fields[key]) else None
  }

  function Patched(fields: map<string, string>, p: map<string, Option<string>>): map<string, string> {
    map key | key in fields.Keys + p.Keys && Field(fields, p, key).Some? :: Field(fields, p, key).value
  }

  /** `{ ...current, ...patch, updatedAt }`. */
  function Merge(m: Meta, p: Patch, now: nat): Meta {
    Meta(
      Or(p.status, m.status),
      Or(p.priorityReason, m.priorityReason),
      Or(p.attentionMatchedAt, m.attentionMatchedAt),
      Or(p.attentionReason, m.attentionReason),
      Or(p.userPaused, m.userPaused),
      Patched(m.other, p.other),
      now)
  }

  /** What a patch call asks for: a validator that may throw, and the patch for the current record. */
  datatype Request = Request(validates: Meta -> bool, patch: Meta -> Option<Patch>)

  /** The call finds a record, its validator does not throw, and its patch function does not decline. */
  predicate Accepted(stored: Option<Meta>, request: Request) {
    stored.Some? && request.validates(Overlay(stored.value)) && request.patch(Overlay(stored.value)).Some?
  }

  /** One patch call run alone on the stored record: read through the overlay, validate, merge, write. */
  function RunRequest(stored: Option<Meta>, request: Request, now: nat): Option<Meta> {
    if !Accepted(stored, request) then stored
    else Some(Merge(Overlay(stored.value), request.patch(Overlay(stored.value)).value, now))
  }

  /** One patch that has the effect of p followed by q. */
  function Then(p: Patch, q: Patch): Patch {
    Patch(
      if q.status.Some? then q.status else p.status,
      if q.priorityReason.Some? then q.priorityReason else p.priorityReason,
      if q.attentionMatchedAt.Some? then q.attentionMatchedAt else p.attentionMatchedAt,
      if q.attentionReason.Some? then q.attentionReason else p.attentionReason,
      if q.userPaused.Some? then q.userPaused else p.userPaused,
      p.other + q.other)
  }

  /** No field is set by both. */
  predicate Disjoint(p: Patch, q: Patch) {
    && (p.status.None? || q.status.None?) && (p.priorityReason.None? || q.priorityReason.None?)
    && (p.attentionMatchedAt.None? || q.attentionMatchedAt.None?) && (p.attentionReason.None? || q.attentionReason.None?)
    && (p.userPaused.None? || q.userPaused.None?) && p.other.Keys !! q.other.Keys
  }

  lemma PatchesCompose(fields: map<string, string>, p: map<string, Option<string>>, q: map<string, Option<string>>)
    ensures Patched(Patched(fields, p), q) == Patched(fields, p + q)
    ensures forall key: string :: At(Patched(Patched(fields, p), q), key) ==
              if key in q then q[key] else if key in p then p[key] else At(fields, key)
  {
  }

  /** Of two patches the later one wins, field by field; what neither sets is kept. */
  lemma LaterPatchWins(m: Meta, p: Patch, q: Patch, s: nat, t: nat)
    ensures Merge(Merge(m, p, s), q, t) == Merge(m, Then(p, q), t)
    ensures
      var r := Merge(Merge(m, p, s), q, t);
      && r.status == (if q.status.Some? then q.status.value else if p.status.Some? then p.status.value else m.status)
      && r.priorityReason == (if q.priorityReason.Some? then q.priorityReason.value
                              else if p.priorityReason.Some? then p.priorityReason.value else m.priorityReason)
      && r.attentionMatchedAt == (if q.attentionMatchedAt.Some? then q.attentionMatchedAt.value
                                  else if p.attentionMatchedAt.Some? then p.attentionMatchedAt.value else m.attentionMatchedAt)
      && r.attentionReason == (if q.attentionReason.Some? then q.attentionReason.value
                               else if p.attentionReason.Some? then p.attentionReason.value else m.attentionReason)
      && r.userPaused == (if q.userPaused.Some? then q.userPaused.value
                          else if p.userPaused.Some? then p.userPaused.value else m.userPaused)
      && r.updatedAt == t
    ensures
      var r := Merge(Merge(m, p, s), q, t);
      forall key: string :: At(r.other, key) ==
        if key in q.other then q.other[key] else if key in p.other then p.other[key] else At(m.other, key)
  {
    hide Patched;
    PatchesCompose(m.other, p.other, q.other);
  }

  lemma PatchesCommute(fields: map<string, string>, p: map<string, Option<string>>, q: map<string, Option<string>>)
    requires p.Keys !! q.Keys
    ensures Patched(Patched(fields, p), q) == Patched(Patched(fields, q), p)
    ensures forall key <- p :: At(Patched(Patched(fields, p), q), key) == p[key]
  {
    var a, b := Patched(Patched(fields, p), q), Patched(Patched(fields, q), p);
    assert forall k: string :: k in a <==> k in b;
    assert a == b;
  }

  /** The record holds everything that the patch sets. */
  ghost predicate Holds(m: Meta, p: Patch) {
    && (p.status.Some? ==> m.status == p.status.value)
    && (p.priorityReason.Some? ==> m.priorityReason == p.priorityReason.value)
    && (p.attentionMatchedAt.Some? ==> m.attentionMatchedAt == p.attentionMatchedAt.value)
    && (p.attentionReason.Some? ==> m.attentionReason == p.attentionReason.value)
    && (p.userPaused.Some? ==> m.userPaused == p.userPaused.value)
    && forall key <- p.other :: At(m.other, key) == p.other[key]
  }

  /** Patches of different fields both survive, in either order. */
  lemma DisjointPatchesBothSurvive(m: Meta, p: Patch, q: Patch, s: nat, t: nat)
    requires Disjoint(p, q)
    ensures Merge(Merge(m, p, s), q, t) == Merge(Merge(m, q, s), p, t)
    ensures Holds(Merge(Merge(m, p, s), q, t), p) && Holds(Merge(Merge(m, p, s), q, t), q)
  {
    hide Patched;
    PatchesCommute(m.other, p.other, q.other);
    PatchesCommute(m.other, q.other, p.other);
  }
}
