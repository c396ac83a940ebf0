/**
 Form submissions: the contact is matched or added, its deal in the form's pipeline is reused,
 reopened or created, and the database's partial unique index allows one open deal for each contact
 and pipeline.
 */
module FormIntake {
  import opened Basics

  type Id = nat

  const OPEN := "open"
  const REUSE_OPEN_DEAL := "reuse_open_deal"
  const REOPEN_LATEST := "reopen_latest"

  datatype Contact = Contact(workspace: Id, name: Option<string>, email: Option<string>, phone: Option<string>,
                             source: Option<string>, custom: map<string, string>, deleted: bool)

  datatype Deal = Deal(contact: Id, pipeline: Id, stage: Id, status: string, createdAt: int,
                       stageEnteredAt: int, closedAt: Option<int>, sourceForm: Option<Id>)

  datatype Submission = Submission(form: Id, contact: Id, deal: Id)

  datatype Form = Form(id: Id, workspace: Id, pipeline: Id, entryStage: Id, policy: Option<string>,
                       matchingKeys: seq<string>, sourceDefault: Option<string>)

  datatype Db = Db(contacts: map<Id, Contact>, deals: map<Id, Deal>, submissions: seq<Submission>)

  type Payload = map<string, string>

  datatype Action = Reused | Reopened | Created

  datatype Outcome =
    | Submitted(contact: Id, deal: Id, action: Action)
    | Misconfigured           // the pipeline or stage is missing
    | AmbiguousContact        // the contact query finds several rows
    | IndexViolation          // a second open deal for the contact and pipeline

  // ---------------------------------------------------------------- contact matching

  function Get(payload: Payload, key: string): Option<string> {
    if key in payload && payload[key] != "" then Some(payload[key]) else None
  }

  function Raw(payload: Payload, key: string): Option<string> {
    if key in payload then Some(payload[key]) else None
  }

  /** `payload.get(key) or payload.get(otherKey)`. */
  function FirstOf(payload: Payload, key: string, otherKey: string): Option<string> {
    if Get(payload, key).Some? then Get(payload, key) else Raw(payload, otherKey)
  }

  /** The value a matching key looks for. */
  function KeyValue(payload: Payload, key: string): Option<string> {
    if Get(payload, key).Some? then Get(payload, key) else Get(payload, "contact_" + key)
  }

  /** The contact a submission adds: its custom fields are the payload's keys that say so. */
  function NewContact(form: Form, payload: Payload): Contact {
    Contact(form.workspace, Raw(payload, "name"),
            FirstOf(payload, "email", "primary_email"), FirstOf(payload, "phone", "primary_phone"),
            form.sourceDefault, map k | k in payload && "custom_" <= k :: payload[k], false)
  }

  /** The live contacts of the workspace a matching key finds. */
  function Hits(db: Db, workspace: Id, payload: Payload, key: string): set<Id> {
    var val := KeyValue(payload, key);
    set c | c in db.contacts && val.Some? && db.contacts[c].workspace == workspace && !db.contacts[c].deleted &&
            ((key in ["email", "primary_email"] && db.contacts[c].email == val) ||
             (key in ["phone", "primary_phone"] && db.contacts[c].phone == val))
  }

  datatype Lookup = Missing | Found(contact: Id) | Ambiguous

  /** The first matching key with a hit decides; two hits are an error. */
  ghost predicate LooksUp(db: Db, workspace: Id, payload: Payload, keys: seq<string>, r: Lookup) {
    match r
    case Missing => forall k :: k in keys ==> Hits(db, workspace, payload, k) == {}
    case Found(c) => exists i :: 0 <= i < |keys| && Hits(db, workspace, payload, keys[i]) == {c} &&
                                 forall j :: 0 <= j < i ==> Hits(db, workspace, payload, keys[j]) == {}
    case Ambiguous => exists i :: 0 <= i < |keys| && |Hits(db, workspace, payload, keys[i])| > 1 &&
                                  forall j :: 0 <= j < i ==> Hits(db, workspace, payload, keys[j]) == {}
  }

  // ---------------------------------------------------------------- deals

  function DealsOf(deals: map<Id, Deal>, contact: Id, pipeline: Id): set<Id> {
    set d | d in deals && deals[d].contact == contact && deals[d].pipeline == pipeline
  }

  function OpenDealsOf(deals: map<Id, Deal>, contact: Id, pipeline: Id): set<Id> {
    set d | d in deals && deals[d].contact == contact && deals[d].pipeline == pipeline && deals[d].status == OPEN
  }

  /** The partial unique index on (contact, pipeline) where status = 'open'. */
  ghost predicate IndexHolds(deals: map<Id, Deal>) {
    forall d, e | d in deals && e in deals && deals[d].status == OPEN && deals[e].status == OPEN ::
      deals[d].contact == deals[e].contact && deals[d].pipeline == deals[e].pipeline ==> d == e
  }

  function EffectivePolicy(form: Form, pipelinePolicy: Option<string>): string {
    if form.policy.Some? && form.policy.value != "" then form.policy.value
    else if pipelinePolicy.Some? && pipelinePolicy.value != "" then pipelinePolicy.value
    else REUSE_OPEN_DEAL
  }

  /** The result of `upsert_contact` and the contact table after it. */
  ghost predicate UpsertStep(before: Db, form: Form, payload: Payload, keys: seq<string>,
                             r: Lookup, created: bool, contacts: map<Id, Contact>) {
    && r != Missing
    && (!created ==> LooksUp(before, form.workspace, payload, keys, r) && contacts == before.contacts)
    && (created ==>
          && LooksUp(before, form.workspace, payload, keys, Missing)
          && r.Found? && r.contact !in before.contacts
          && contacts == before.contacts[r.contact := NewContact(form, payload)])
  }

  function Reopening(d: Deal, entryStage: Id, now: int): Deal {
    d.(status := OPEN, stage := entryStage, stageEnteredAt := now, closedAt := None)
  }

  /** The result of `resolve_deal` and the deal table after it. */
  ghost predicate ResolveStep(before: map<Id, Deal>, contact: Id, pipeline: Id, entryStage: Id, policy: string,
                              now: int,
                              r: Option<(Id, Action)>, after: map<Id, Deal>) {
    && (r.None? <==> OpenDealsOf(before, contact, pipeline) != {} && policy != REUSE_OPEN_DEAL)
    && (r.None? ==> after == before)
    && (r.Some? ==>
          var (d, action) := r.value;
          && d in after && OpenDealsOf(after, contact, pipeline) == {d}
          && (action == Reused <==> OpenDealsOf(before, contact, pipeline) != {})
          && (action == Reopened <==>
                action != Reused && policy == REOPEN_LATEST && DealsOf(before, contact, pipeline) != {})
          && match action {
               case Reused => after == before
               case Reopened =>
                 && d in DealsOf(before, contact, pipeline)
                 && (forall e :: e in DealsOf(before, contact, pipeline) ==> before[e].createdAt <= before[d].createdAt)
                 && after == before[d := Reopening(before[d], entryStage, now)]
               case Created =>
                 d !in before && after == before[d := Deal(contact, pipeline, entryStage, OPEN, now, now, None, None)]
             })
  }

  // ---------------------------------------------------------------- what it means for the rows

  /** The form's own policy, else its pipeline's, else reuse. */
  lemma PolicyMeans(form: Form, pipelinePolicy: Option<string>)
    ensures var policy := EffectivePolicy(form, pipelinePolicy);
            && (form.policy !in {None, Some("")} ==> Some(policy) == form.policy)
            && (form.policy in {None, Some("")} && pipelinePolicy !in {None, Some("")} ==>
                  Some(policy) == pipelinePolicy)
            && (form.policy in {None, Some("")} && pipelinePolicy in {None, Some("")} ==> policy == "reuse_open_deal")
  {
  }

  /** The payload's value under the key, or under "contact_" and the key; empty values do not count. */
  ghost predicate Gives(payload: Payload, key: string, val: string) {
    && val != ""
    && if key in payload && payload[key] != "" then val == payload[key]
       else "contact_" + key in payload && val == payload["contact_" + key]
  }

  /** A key finds the live contacts of the workspace with that address, and only the address keys find any. */
  lemma HitsMean(db: Db, workspace: Id, payload: Payload, key: string, c: Id)
    ensures c in Hits(db, workspace, payload, key) <==>
              && c in db.contacts && db.contacts[c].workspace == workspace && !db.contacts[c].deleted
              && (((key == "email" || key == "primary_email") && db.contacts[c].email.Some? &&
                   Gives(payload, key, db.contacts[c].email.value)) ||
                  ((key == "phone" || key == "primary_phone") && db.contacts[c].phone.Some? &&
                   Gives(payload, key, db.contacts[c].phone.value)))
  {
  }

  /** Without keys of its own, a form matches by email address and then by phone number. */
  lemma KeysMean(form: Form)
    ensures form.matchingKeys == [] ==>
              |MatchingKeys(form)| == 2 && MatchingKeys(form)[0] == "email" && MatchingKeys(form)[1] == "phone"
    ensures form.matchingKeys != [] ==> MatchingKeys(form) == form.matchingKeys
  {
  }

  /** A new contact is live, of the form's workspace and source, and takes name, addresses and custom fields. */
  lemma NewContactMeans(form: Form, payload: Payload)
    ensures var c := NewContact(form, payload);
            && c.workspace == form.workspace && c.source == form.sourceDefault && !c.deleted
            && c.name == (if "name" in payload then Some(payload["name"]) else None)
            && (Truthy(payload, "email") ==> c.email == Some(payload["email"]))
            && (Truthy(payload, "phone") ==> c.phone == Some(payload["phone"]))
            && (!Truthy(payload, "email") ==>
                  c.email == if "primary_email" in payload then Some(payload["primary_email"]) else None)
            && (!Truthy(payload, "phone") ==>
                  c.phone == if "primary_phone" in payload then Some(payload["primary_phone"]) else None)
            && (forall k :: k in c.custom <==> k in payload && "custom_" <= k)
            && (forall k :: k in c.custom ==> c.custom[k] == payload[k])
  {
  }

  predicate Truthy(payload: Payload, key: string) {
    key in payload && payload[key] != ""
  }

  /** The deals of a contact in a pipeline, and the open ones among them. */
  lemma DealsMean(deals: map<Id, Deal>, contact: Id, pipeline: Id, d: Id)
    ensures d in DealsOf(deals, contact, pipeline) <==>
              d in deals && deals[d].contact == contact && deals[d].pipeline == pipeline
    ensures d in OpenDealsOf(deals, contact, pipeline) <==>
              d in DealsOf(deals, contact, pipeline) && deals[d].status == "open"
  {
  }

  /** Reopening a deal starts it over in the entry stage; it stays the same contact's deal, from the same day. */
  lemma ReopeningMeans(d: Deal, entryStage: Id, now: int)
    ensures Reopening(d, entryStage, now) ==
              Deal(d.contact, d.pipeline, entryStage, "open", d.createdAt, now, None, d.sourceForm)
  {
  }

  class Intake {
    var contacts: map<Id, Contact>
    var deals: map<Id, Deal>
    var submissions: seq<Submission>
    var nextId: Id             // every id handed out so far is smaller

    ghost predicate Valid()
      reads this
    {
      && (forall c :: c in contacts ==> c < nextId)
      && (forall d :: d in deals ==> d < nextId && deals[d].contact in contacts)
      && IndexHolds(deals)
    }

    function Rows(): Db
      reads this
    {
      Db(contacts, deals, submissions)
    }

    constructor ()
      ensures Valid() && Rows() == Db(map[], map[], [])
    {
      contacts, deals, submissions, nextId := map[], map[], [], 0;
    }

    method FindContact(workspace: Id, payload: Payload, keys: seq<string>) returns (r: Lookup)
      ensures LooksUp(Rows(), workspace, payload, keys, r)
    {
      for i := 0 to |keys|
        invariant forall j :: 0 <= j < i ==> Hits(Rows(), workspace, payload, keys[j]) == {}
      {
        var hits := Hits(Rows(), workspace, payload, keys[i]);
        if |hits| > 1 {
          return Ambiguous;
        }
        if hits != {} {
          var c :| c in hits;
          assert hits == {c} by {
            SubsetIsNoLarger({c}, hits);
          }
          return Found(c);
        }
      }
      return Missing;
    }

    /** `upsert_contact` as the form uses it: a matched contact is left as it is. */
    method UpsertContact(form: Form, payload: Payload, keys: seq<string>) returns (r: Lookup, created: bool)
      requires Valid()
      modifies this`contacts, this`nextId
      ensures Valid() && nextId >= old(nextId)
      ensures UpsertStep(old(Rows()), form, payload, keys, r, created, contacts)
    {
      var found := FindContact(form.workspace, payload, keys);
      if found != Missing {
        return found, false;
      }
      var c := nextId;
      nextId := nextId + 1;
      contacts := contacts[c := NewContact(form, payload)];
      return Found(c), true;
    }

    /** None is the violation of the index; the transaction is then lost. */
    method ResolveDeal(contact: Id, pipeline: Id, entryStage: Id, policy: string, now: int)
      returns (r: Option<(Id, Action)>)
      requires Valid() && contact in contacts
      modifies this`deals, this`nextId
      ensures Valid() && nextId >= old(nextId)
      ensures ResolveStep(old(deals), contact, pipeline, entryStage, policy, now, r, deals)
    {
      var existing := OpenDealsOf(deals, contact, pipeline);
      if existing != {} && policy == REUSE_OPEN_DEAL {
        var d :| d in existing;
        return Some((d, Reused));
      }
      if policy == REOPEN_LATEST && existing == {} {
        var all := DealsOf(deals, contact, pipeline);
        if all != {} {
          ghost var latest := LatestExists(deals, all);
          var d :| d in all && forall e :: e in all ==> deals[e].createdAt <= deals[d].createdAt;
          OneMoreOpen(deals, d, Reopening(deals[d], entryStage, now));
          deals := deals[d := Reopening(deals[d], entryStage, now)];
          return Some((d, Reopened));
        }
      }
      if existing != {} {
        return None;
      }
      var d := nextId;
      nextId := nextId + 1;
      OneMoreOpen(deals, d, Deal(contact, pipeline, entryStage, OPEN, now, now, None, None));
      deals := deals[d := Deal(contact, pipeline, entryStage, OPEN, now, now, None, None)];
      return Some((d, Created));
    }

    method LinkSubmission(form: Id, contact: Id, deal: Id)
      requires Valid() && deal in deals
      modifies this`deals, this`submissions
      ensures Valid()
      ensures deals == old(deals)[deal := old(deals)[deal].(sourceForm := Some(form))]
      ensures submissions == old(submissions) + [Submission(form, contact, deal)]
    {
      deals := deals[deal := deals[deal].(sourceForm := Some(form))];
      submissions := submissions + [Submission(form, contact, deal)];
    }

    /** `configured` says whether the form's pipeline and stage exist. A failed submission is rolled back. */
    method ProcessFormSubmission(form: Form, payload: Payload, configured: bool, pipelinePolicy: Option<string>,
                                 now: int)
      returns (r: Outcome)
      requires Valid()
      modifies this
      ensures Valid()
      ensures SubmitStep(old(Rows()), Request(form, payload, configured, pipelinePolicy, now), r, Rows())
    {
      if !configured {
        return Misconfigured;
      }
      var before := Rows();
      var keys := MatchingKeys(form);
      var contact, created := UpsertContact(form, payload, keys);
      if contact == Ambiguous {
        return AmbiguousContact;
      }
      var policy := EffectivePolicy(form, pipelinePolicy);
      var resolved := ResolveDeal(contact.contact, form.pipeline, form.entryStage, policy, now);
      if resolved.None? {
        NewContactHasNoDeals(before, Request(form, payload, configured, pipelinePolicy, now),
                             contact.contact, created, contacts);
        contacts, deals, submissions := before.contacts, before.deals, before.submissions;
        return IndexViolation;
      }
      var (d, action) := resolved.value;
      SubmitFromParts(before, Request(form, payload, configured, pipelinePolicy, now),
                      contact.contact, created, contacts, resolved, deals);
      LinkSubmission(form.id, contact.contact, d);
      return Submitted(contact.contact, d, action);
    }
  }

  /** `form.matching_keys or ["email", "phone"]`. */
  function MatchingKeys(form: Form): seq<string> {
    if form.matchingKeys == [] then ["email", "phone"] else form.matchingKeys
  }

  datatype Request = Request(form: Form, payload: Payload, configured: bool, pipelinePolicy: Option<string>, now: int)

  /** The contact a submission is filed under: the one that was found, or a new row. */
  ghost predicate FiledUnder(before: Db, req: Request, contact: Id, after: Db) {
    var keys := MatchingKeys(req.form);
    || (LooksUp(before, req.form.workspace, req.payload, keys, Found(contact)) && after.contacts == before.contacts)
    || (LooksUp(before, req.form.workspace, req.payload, keys, Missing) && contact !in before.contacts &&
        after.contacts == before.contacts[contact := NewContact(req.form, req.payload)])
  }

  /** An open deal stands in the way of a new one for the contact this submission finds. */
  ghost predicate Blocked(before: Db, req: Request) {
    exists c :: LooksUp(before, req.form.workspace, req.payload, MatchingKeys(req.form), Found(c)) &&
                OpenDealsOf(before.deals, c, req.form.pipeline) != {}
  }

  /** What one submission does to the tables, and when it fails. */
  ghost predicate SubmitStep(before: Db, req: Request, r: Outcome, after: Db) {
    && (r == Misconfigured <==> !req.configured)
    && (r == AmbiguousContact ==>
          LooksUp(before, req.form.workspace, req.payload, MatchingKeys(req.form), Ambiguous))
    && (r == IndexViolation ==>
          Blocked(before, req) && EffectivePolicy(req.form, req.pipelinePolicy) != REUSE_OPEN_DEAL)
    && (!r.Submitted? ==> after == before)
    && (r.Submitted? ==>
          && FiledUnder(before, req, r.contact, after)
          && after.submissions == before.submissions + [Submission(req.form.id, r.contact, r.deal)]
          && OpenDealsOf(after.deals, r.contact, req.form.pipeline) == {r.deal}
          && after.deals.Keys == before.deals.Keys + {r.deal}
          && (forall d :: d in before.deals && d != r.deal ==> after.deals[d] == before.deals[d])
          && after.deals[r.deal].sourceForm == Some(req.form.id)
          && (r.action == Created <==> r.deal !in before.deals)
          && (r.action == Reused <==> OpenDealsOf(before.deals, r.contact, req.form.pipeline) != {})
          && (r.action == Reused ==> after.deals[r.deal] == before.deals[r.deal].(sourceForm := Some(req.form.id)))
          && (r.action == Created ==>
                after.deals[r.deal] == Deal(r.contact, req.form.pipeline, req.form.entryStage, "open", req.now, req.now,
                                            None, Some(req.form.id)))
          && (r.action == Reopened ==>
                && r.deal in DealsOf(before.deals, r.contact, req.form.pipeline)
                && (forall e :: e in DealsOf(before.deals, r.contact, req.form.pipeline) ==>
                      before.deals[e].createdAt <= before.deals[r.deal].createdAt)
                && after.deals[r.deal] == before.deals[r.deal].(
                     status := "open", stage := req.form.entryStage, stageEnteredAt := req.now, closedAt := None,
                     sourceForm := Some(req.form.id)))
          && (r.action == Reopened ==> EffectivePolicy(req.form, req.pipelinePolicy) == REOPEN_LATEST)
          && (r.action == Created && EffectivePolicy(req.form, req.pipelinePolicy) == REOPEN_LATEST ==>
                DealsOf(before.deals, r.contact, req.form.pipeline) == {})
          && (r.action == Reused ==> EffectivePolicy(req.form, req.pipelinePolicy) == REUSE_OPEN_DEAL))
  }

  /** Only the deals of a contact that was there before can block a submission. */
  lemma NewContactHasNoDeals(before: Db, req: Request, contact: Id, created: bool, contacts: map<Id, Contact>)
    requires UpsertStep(before, req.form, req.payload, MatchingKeys(req.form), Found(contact), created, contacts)
    requires forall d :: d in before.deals ==> before.deals[d].contact in before.contacts
    requires OpenDealsOf(before.deals, contact, req.form.pipeline) != {}
    ensures Blocked(before, req)
  {
    var d :| d in OpenDealsOf(before.deals, contact, req.form.pipeline);
    assert before.deals[d].contact == contact;
  }

  lemma SubmitFromParts(before: Db, req: Request, contact: Id, created: bool, contacts: map<Id, Contact>,
                        resolved: Option<(Id, Action)>, deals: map<Id, Deal>)
    requires req.configured && resolved.Some?
    requires UpsertStep(before, req.form, req.payload, MatchingKeys(req.form), Found(contact), created, contacts)
    requires ResolveStep(before.deals, contact, req.form.pipeline, req.form.entryStage,
                         EffectivePolicy(req.form, req.pipelinePolicy), req.now, resolved, deals)
    ensures var (d, action) := resolved.value;
            SubmitStep(before, req, Submitted(contact, d, action),
                       Db(contacts, deals[d := deals[d].(sourceForm := Some(req.form.id))],
                          before.submissions + [Submission(req.form.id, contact, d)]))
  {
    var (d, action) := resolved.value;
    var after := deals[d := deals[d].(sourceForm := Some(req.form.id))];
    assert OpenDealsOf(after, contact, req.form.pipeline) == OpenDealsOf(deals, contact, req.form.pipeline);
    if d !in before.deals {
      assert action == Created;
    }
  }

  lemma OneMoreOpen(deals: map<Id, Deal>, d: Id, deal: Deal)
    requires IndexHolds(deals) && deal.status == OPEN && OpenDealsOf(deals, deal.contact, deal.pipeline) == {}
    ensures IndexHolds(deals[d := deal])
    ensures OpenDealsOf(deals[d := deal], deal.contact, deal.pipeline) == {d}
  {
    var deals' := deals[d := deal];
    forall e | e in deals && deals[e].status == OPEN
      ensures deals[e].contact != deal.contact || deals[e].pipeline != deal.pipeline {
      assert e !in OpenDealsOf(deals, deal.contact, deal.pipeline);
    }
  }

  lemma {:induction false} LatestExists(deals: map<Id, Deal>, s: set<Id>) returns (d: Id)
    requires s != {} && s <= deals.Keys
    ensures d in s && forall e :: e in s ==> deals[e].createdAt <= deals[d].createdAt
    decreases s
  {
    var x :| x in s;
    if s == {x} {
      d := x;
    } else {
      var latest := LatestExists(deals, s - {x});
      d := if deals[latest].createdAt <= deals[x].createdAt then x else latest;
      forall e | e in s ensures deals[e].createdAt <= deals[d].createdAt {
        assert e == x || e in s - {x};
      }
    }
  }

  // ---------------------------------------------------------------- one submission

  /** The matching keys leave no choice of contact. */
  lemma LookupIsUnique(db: Db, workspace: Id, payload: Payload, keys: seq<string>, r: Lookup, r': Lookup)
    requires LooksUp(db, workspace, payload, keys, r) && LooksUp(db, workspace, payload, keys, r')
    ensures r == r'
  {
    forall i, j | 0 <= i < |keys| && 0 <= j < |keys| &&
                  Hits(db, workspace, payload, keys[i]) != {} && Hits(db, workspace, payload, keys[j]) != {} &&
                  (forall k :: 0 <= k < i ==> Hits(db, workspace, payload, keys[k]) == {}) &&
                  (forall k :: 0 <= k < j ==> Hits(db, workspace, payload, keys[k]) == {})
      ensures i == j
    {
    }
    forall c: Id, d: Id | {c} == {d} ensures c == d {
      assert c in {d};
    }
  }

  /** Key by key: one hit decides, several are an error, and without a hit the next key is tried. */
  lemma FirstKeyDecides(db: Db, workspace: Id, payload: Payload, keys: seq<string>, r: Lookup)
    ensures keys == [] ==> (LooksUp(db, workspace, payload, keys, r) <==> r == Missing)
    ensures keys != [] ==>
              var hits := Hits(db, workspace, payload, keys[0]);
              && (|hits| == 1 ==> (LooksUp(db, workspace, payload, keys, r) <==> r.Found? && r.contact in hits))
              && (|hits| > 1 ==> (LooksUp(db, workspace, payload, keys, r) <==> r == Ambiguous))
              && (hits == {} ==>
                    (LooksUp(db, workspace, payload, keys, r) <==> LooksUp(db, workspace, payload, keys[1..], r)))
  {
    if keys != [] {
      var hits, rest := Hits(db, workspace, payload, keys[0]), keys[1..];
      assert forall i :: 0 < i < |keys| ==> keys[i] == rest[i - 1];
      assert forall i :: 0 <= i < |rest| ==> rest[i] == keys[i + 1];
      if |hits| == 1 {
        var c :| c in hits;
        SubsetIsNoLarger({c}, hits);
        assert hits == {c};
        assert LooksUp(db, workspace, payload, keys, Found(c));
        if LooksUp(db, workspace, payload, keys, r) {
          LookupIsUnique(db, workspace, payload, keys, r, Found(c));
        }
      } else if |hits| > 1 {
        assert LooksUp(db, workspace, payload, keys, Ambiguous);
        if LooksUp(db, workspace, payload, keys, r) {
          LookupIsUnique(db, workspace, payload, keys, r, Ambiguous);
        }
      }
    }
  }

  /** A contact that was found stays as it is; a new one is added with what the form and the payload say. */
  lemma SubmitterMeans(before: Db, req: Request, r: Outcome, after: Db)
    requires SubmitStep(before, req, r, after) && r.Submitted?
    ensures r.contact in before.contacts ==> after.contacts == before.contacts
    ensures r.contact !in before.contacts ==>
              after.contacts == before.contacts[r.contact := NewContact(req.form, req.payload)]
    ensures forall k :: k in MatchingKeys(req.form) && r.contact !in before.contacts ==>
              Hits(before, req.form.workspace, req.payload, k) == {}
    ensures after.submissions == before.submissions + [Submission(req.form.id, r.contact, r.deal)]
  {
    var keys := MatchingKeys(req.form);
    if LooksUp(before, req.form.workspace, req.payload, keys, Found(r.contact)) {
      var i :| 0 <= i < |keys| && Hits(before, req.form.workspace, req.payload, keys[i]) == {r.contact};
      assert r.contact in Hits(before, req.form.workspace, req.payload, keys[i]);
    }
  }

  /**
   Which deal an accepted submission ends on: the open one, if there is one; else the one created last,
   reopened in the entry stage, if the policy is "reopen_latest" and there is any; else a new one. It is
   linked to the form, and no other deal changes.
   */
  lemma DealIsDetermined(before: Db, req: Request, r: Outcome, after: Db)
    requires SubmitStep(before, req, r, after) && r.Submitted?
    ensures var all := set d | d in before.deals && before.deals[d].contact == r.contact &&
                               before.deals[d].pipeline == req.form.pipeline;
            var open := set d | d in all && before.deals[d].status == "open";
            var policy := EffectivePolicy(req.form, req.pipelinePolicy);
            if open != {} then
              && policy == "reuse_open_deal" && r.action == Reused && r.deal in open
              && after.deals == before.deals[r.deal := before.deals[r.deal].(sourceForm := Some(req.form.id))]
            else if policy == "reopen_latest" && all != {} then
              && r.action == Reopened && r.deal in all
              && (forall d :: d in all ==> before.deals[d].createdAt <= before.deals[r.deal].createdAt)
              && after.deals == before.deals[r.deal := before.deals[r.deal].(
                   status := "open", stage := req.form.entryStage, stageEnteredAt := req.now, closedAt := None,
                   sourceForm := Some(req.form.id))]
            else
              && r.action == Created && r.deal !in before.deals
              && after.deals == before.deals[r.deal := Deal(r.contact, req.form.pipeline, req.form.entryStage, "open",
                                                            req.now, req.now, None, Some(req.form.id))]
  {
    var all := set d | d in before.deals && before.deals[d].contact == r.contact &&
                       before.deals[d].pipeline == req.form.pipeline;
    var open := set d | d in all && before.deals[d].status == "open";
    assert all == DealsOf(before.deals, r.contact, req.form.pipeline);
    assert open == OpenDealsOf(before.deals, r.contact, req.form.pipeline);
    if r.action == Reused {
      assert r.deal in OpenDealsOf(after.deals, r.contact, req.form.pipeline);
    }
  }

  /**
   A submission trips the unique index exactly when its policy is not reuse_open_deal and the contact
   it finds has an open deal in the pipeline: so reopen_latest does too, since an open deal makes it
   fall through to a second one.
   */
  lemma TripsIndexIff(before: Db, req: Request, r: Outcome, after: Db)
    requires SubmitStep(before, req, r, after)
    ensures r == IndexViolation <==>
            req.configured && Blocked(before, req) && EffectivePolicy(req.form, req.pipelinePolicy) != REUSE_OPEN_DEAL
  {
    var keys := MatchingKeys(req.form);
    if req.configured && Blocked(before, req) {
      var c :| LooksUp(before, req.form.workspace, req.payload, keys, Found(c)) &&
               OpenDealsOf(before.deals, c, req.form.pipeline) != {};
      if r == AmbiguousContact {
        LookupIsUnique(before, req.form.workspace, req.payload, keys, Found(c), Ambiguous);
      } else if r.Submitted? {
        if LooksUp(before, req.form.workspace, req.payload, keys, Found(r.contact)) {
          LookupIsUnique(before, req.form.workspace, req.payload, keys, Found(c), Found(r.contact));
        } else {
          LookupIsUnique(before, req.form.workspace, req.payload, keys, Found(c), Missing);
        }
      }
    }
  }

  lemma SubmissionKeepsIndex(before: Db, req: Request, r: Outcome, after: Db)
    requires IndexHolds(before.deals) && SubmitStep(before, req, r, after)
    ensures IndexHolds(after.deals)
  {
    if r.Submitted? {
      assert r.deal in OpenDealsOf(after.deals, r.contact, req.form.pipeline);
      forall e | e in after.deals && after.deals[e].status == OPEN && after.deals[e].contact == r.contact &&
                 after.deals[e].pipeline == req.form.pipeline
        ensures e == r.deal
      {
        assert e in OpenDealsOf(after.deals, r.contact, req.form.pipeline);
      }
    }
  }

  // ---------------------------------------------------------------- any number of submissions

  ghost predicate Submissions(dbs: seq<Db>, reqs: seq<Request>, results: seq<Outcome>) {
    && |dbs| == |reqs| + 1 && |results| == |reqs|
    && IndexHolds(dbs[0].deals)
    && forall i :: 0 <= i < |reqs| ==> SubmitStep(dbs[i], reqs[i], results[i], dbs[i + 1])
  }

  function Accepted(results: seq<Outcome>): nat {
    if results == [] then 0
    else Accepted(results[..|results| - 1]) + if results[|results| - 1].Submitted? then 1 else 0
  }

  function DealsCreated(results: seq<Outcome>): nat {
    if results == [] then 0
    else
      var last := results[|results| - 1];
      DealsCreated(results[..|results| - 1]) + if last.Submitted? && last.action == Created then 1 else 0
  }

  /**
   One open deal: whatever the policies, no run of submissions ever leaves two open deals for a
   contact and pipeline; submissions grow by one for each accepted form and deals only on "created".
   */
  lemma {:induction false} OneOpenDeal(dbs: seq<Db>, reqs: seq<Request>, results: seq<Outcome>, n: nat)
    requires Submissions(dbs, reqs, results) && n <= |reqs|
    ensures forall c, p :: |OpenDealsOf(dbs[n].deals, c, p)| <= 1
    ensures |dbs[n].submissions| == |dbs[0].submissions| + Accepted(results[..n])
    ensures |dbs[n].deals| == |dbs[0].deals| + DealsCreated(results[..n])
    ensures IndexHolds(dbs[n].deals)
  {
    if n > 0 {
      OneOpenDeal(dbs, reqs, results, n - 1);
      assert SubmitStep(dbs[n - 1], reqs[n - 1], results[n - 1], dbs[n]);
      SubmissionKeepsIndex(dbs[n - 1], reqs[n - 1], results[n - 1], dbs[n]);
      assert results[..n][..n - 1] == results[..n - 1];
      DealCount(dbs[n - 1], reqs[n - 1], results[n - 1], dbs[n]);
    } else {
      assert results[..0] == [];
    }
    forall c, p ensures |OpenDealsOf(dbs[n].deals, c, p)| <= 1 {
      IndexMeansOne(dbs[n].deals, c, p);
    }
  }

  lemma DealCount(before: Db, req: Request, r: Outcome, after: Db)
    requires SubmitStep(before, req, r, after)
    ensures |after.deals| == |before.deals| + if r.Submitted? && r.action == Created then 1 else 0
  {
    assert |after.deals| == |after.deals.Keys| && |before.deals| == |before.deals.Keys|;
    if r.Submitted? && r.action != Created {
      assert after.deals.Keys == before.deals.Keys;
    }
  }

  lemma IndexMeansOne(deals: map<Id, Deal>, c: Id, p: Id)
    requires IndexHolds(deals)
    ensures |OpenDealsOf(deals, c, p)| <= 1
  {
    var s := OpenDealsOf(deals, c, p);
    if s != {} {
      var d :| d in s;
      assert s == {d};
    }
  }

  /**
   Under reuse_open_deal no run of submissions, one after the other, trips the index, and every accepted
   form is linked to an open deal. `IntakeRace` has the submissions that overlap.
   */
  lemma ReuseNeverTrips(dbs: seq<Db>, reqs: seq<Request>, results: seq<Outcome>, n: nat)
    requires Submissions(dbs, reqs, results) && n < |reqs|
    requires EffectivePolicy(reqs[n].form, reqs[n].pipelinePolicy) == REUSE_OPEN_DEAL
    ensures results[n] != IndexViolation
    ensures results[n].Submitted? ==>
              exists s :: s in dbs[n + 1].submissions && s.form == reqs[n].form.id && s.contact == results[n].contact &&
                          OpenDealsOf(dbs[n + 1].deals, s.contact, reqs[n].form.pipeline) == {s.deal}
    ensures results[n].Submitted? && OpenDealsOf(dbs[n].deals, results[n].contact, reqs[n].form.pipeline) != {} ==>
              OpenDealsOf(dbs[n].deals, results[n].contact, reqs[n].form.pipeline) == {results[n].deal}
  {
    var before, after, r := dbs[n], dbs[n + 1], results[n];
    assert SubmitStep(before, reqs[n], r, after);
    OneOpenDeal(dbs, reqs, results, n);
    if r.Submitted? {
      assert after.submissions[|before.submissions|] in after.submissions;
      assert r.deal in OpenDealsOf(after.deals, r.contact, reqs[n].form.pipeline);
      if r.action == Reused {
        assert r.deal in OpenDealsOf(before.deals, r.contact, reqs[n].form.pipeline);
        SubsetIsNoLarger({r.deal}, OpenDealsOf(before.deals, r.contact, reqs[n].form.pipeline));
      }
    }
  }
}
