/**
 * The `Inquiry` schema: setters and defaults, the validators run on save, the
 * `days_until_wedding` virtual, `needsFollowUp`, the pre-save hook that stamps `updated_at`,
 * and the two static queries, over the `inquiries` collection.
 */
module InquiryModel {
  import opened Js
  import opened Patterns
  import opened Query

  const Packages: set<string> := {"basic", "premium", "luxury", "custom"}
  const Budgets: set<string> := {"under-50jt", "50jt-100jt", "100jt-200jt", "above-200jt", "discuss"}
  const Statuses: set<string> := {"new", "contacted", "quoted", "booked", "completed", "cancelled"}
  const Priorities: set<string> := {"low", "medium", "high", "urgent"}

  /** One day in milliseconds: `1000 * 60 * 60 * 24`. */
  const DayMillis := 86400000

  /** A stored inquiry. Required string fields hold "" when they were not given (the required
      validator refuses both); dates are milliseconds. */
  datatype Inquiry = Inquiry(
    id: nat,
    nama: string,
    email: string,
    weddingDate: Option<int>,
    package: Option<string>,
    message: string,
    phone: Option<string>,
    budget: string,
    status: string,
    priority: string,
    notes: Option<string>,
    followUpDate: Option<int>,
    createdAt: int,
    updatedAt: int)

  function TrimOpt(s: Option<string>): Option<string>
  {
    if s.Some? then Some(Trim(s.value)) else None
  }

  /** `new Inquiry({...})`: nama, message and phone are trimmed, the email trimmed and
      lower-cased; budget, status and priority default to 'discuss', 'new' and 'medium';
      both dates default to now. */
  function NewInquiry(id: nat, nama: string, email: string, weddingDate: Option<int>,
                      package: Option<string>, message: string, phone: Option<string>,
                      budget: Option<string>, status: Option<string>, priority: Option<string>,
                      notes: Option<string>, followUpDate: Option<int>, now: int): Inquiry
  {
    Inquiry(id, Trim(nama), ToLower(Trim(email)), weddingDate, package, Trim(message), TrimOpt(phone),
            if budget.Some? then budget.value else "discuss",
            if status.Some? then status.value else "new",
            if priority.Some? then priority.value else "medium",
            notes, followUpDate, now, now)
  }

  datatype InquiryPath =
    NamaPath | EmailPath | WeddingDatePath | PackagePath | MessagePath | PhonePath
    | BudgetPath | StatusPath | PriorityPath | NotesPath

  /** Whether the validators of path `p` refuse `q` at time `now`: nama and message required
      with at most 100 and 1000 UTF-16 units, the email required and matching the Inquiry
      pattern, the wedding date required and after now, the package required and in its enum,
      a non-empty phone matching its pattern, budget, status and priority in their enums, and
      notes of at most 500 units. */
  predicate Fails(q: Inquiry, p: InquiryPath, now: int)
  {
    match p
    case NamaPath => q.nama == "" || JsLength(q.nama) > 100
    case EmailPath => q.email == "" || !IsInquiryEmail(q.email)
    case WeddingDatePath => q.weddingDate.None? || q.weddingDate.value <= now
    case PackagePath => q.package.None? || q.package.value !in Packages
    case MessagePath => q.message == "" || JsLength(q.message) > 1000
    case PhonePath => Truthy(q.phone) && !IsInquiryPhone(q.phone.value)
    case BudgetPath => q.budget !in Budgets
    case StatusPath => q.status !in Statuses
    case PriorityPath => q.priority !in Priorities
    case NotesPath => q.notes.Some? && JsLength(q.notes.value) > 500
  }

  const FieldPaths: set<InquiryPath> :=
    {NamaPath, EmailPath, WeddingDatePath, PackagePath, MessagePath, PhonePath, NotesPath}

  /** The failing paths among those with required, length, date and pattern validators. */
  function FieldErrors(q: Inquiry, now: int): (errs: set<InquiryPath>)
    ensures NamaPath in errs <==> q.nama == "" || JsLength(q.nama) > 100
    ensures EmailPath in errs <==> !IsInquiryEmail(q.email)
    ensures WeddingDatePath in errs <==> q.weddingDate.None? || q.weddingDate.value <= now
    ensures PackagePath in errs <==> q.package.None? || q.package.value !in Packages
    ensures MessagePath in errs <==> q.message == "" || JsLength(q.message) > 1000
    ensures PhonePath in errs <==> Truthy(q.phone) && !IsInquiryPhone(q.phone.value)
    ensures NotesPath in errs <==> q.notes.Some? && JsLength(q.notes.value) > 500
    ensures errs <= FieldPaths
  {
    set p | p in FieldPaths && Fails(q, p, now)
  }

  /** The failing paths among the three enums with defaults. */
  function EnumErrors(q: Inquiry): (errs: set<InquiryPath>)
    ensures BudgetPath in errs <==> q.budget !in Budgets
    ensures StatusPath in errs <==> q.status !in Statuses
    ensures PriorityPath in errs <==> q.priority !in Priorities
    ensures errs <= {BudgetPath, StatusPath, PriorityPath}
  {
    (if q.budget in Budgets then {} else {BudgetPath})
    + (if q.status in Statuses then {} else {StatusPath})
    + (if q.priority in Priorities then {} else {PriorityPath})
  }

  /** The paths that fail validation at time `now`. */
  function ValidationErrors(q: Inquiry, now: int): set<InquiryPath>
  {
    FieldErrors(q, now) + EnumErrors(q)
  }

  /** The defaults lie within their enums, so a new inquiry that leaves budget, status and
      priority unset is never refused for them; a name or message that fits before trimming
      still fits after it. */
  lemma NewInquiryDefaults(id: nat, nama: string, email: string, weddingDate: Option<int>,
                           package: Option<string>, message: string, phone: Option<string>,
                           budget: Option<string>, status: Option<string>, priority: Option<string>,
                           notes: Option<string>, followUpDate: Option<int>, now: int)
    ensures var q := NewInquiry(id, nama, email, weddingDate, package, message, phone,
                                budget, status, priority, notes, followUpDate, now);
      var errs := EnumErrors(q);
      && (budget.None? ==> q.budget == "discuss" && BudgetPath !in errs)
      && (status.None? ==> q.status == "new" && StatusPath !in errs)
      && (priority.None? ==> q.priority == "medium" && PriorityPath !in errs)
      && (JsLength(nama) <= 100 ==> JsLength(q.nama) <= 100)
      && (JsLength(message) <= 1000 ==> JsLength(q.message) <= 1000)
      && q.createdAt == now && q.updatedAt == now
  {
    TrimShortens(nama);
    TrimShortens(message);
  }

  /** `days_until_wedding`: no value without a date, otherwise `Math.ceil` of the days left,
      negative once the date has passed. */
  function DaysUntilWedding(q: Inquiry, now: int): (r: Option<int>)
    ensures r.None? <==> q.weddingDate.None?
    ensures r.Some? ==>
      (r.value - 1) * DayMillis < q.weddingDate.value - now <= r.value * DayMillis
  {
    if q.weddingDate.None? then None
    else Some(-((now - q.weddingDate.value) / DayMillis))
  }

  /** An inquiry that passes validation at `now` has its wedding at least one (rounded-up) day
      ahead; a wedding date that has passed gives zero or fewer days. */
  lemma ValidInquiryHasDaysAhead(q: Inquiry, now: int)
    ensures ValidationErrors(q, now) == {} ==> DaysUntilWedding(q, now).Some? && DaysUntilWedding(q, now).value >= 1
    ensures q.weddingDate.Some? && q.weddingDate.value <= now ==> DaysUntilWedding(q, now).value <= 0
  {
    if q.weddingDate.Some? {
      var k := DaysUntilWedding(q, now).value;
      if q.weddingDate.value > now {
        assert k * DayMillis > 0;
      } else {
        assert (k - 1) * DayMillis < 0;
      }
    }
    assert WeddingDatePath in FieldErrors(q, now) ==> WeddingDatePath in ValidationErrors(q, now);
  }

  /** `needsFollowUp()`: false without a follow-up date, otherwise whether that date has come. */
  function NeedsFollowUp(q: Inquiry, now: int): (r: bool)
    ensures r <==> q.followUpDate.Some? && q.followUpDate.value <= now
  {
    if q.followUpDate.None? then false else now >= q.followUpDate.value
  }

  /** Once an inquiry needs a follow-up it keeps needing one as time goes on. */
  lemma FollowUpStaysDue(q: Inquiry, now: int, later: int)
    requires now <= later
    ensures NeedsFollowUp(q, now) ==> NeedsFollowUp(q, later)
  {
  }

  /** The pre-save hook (and the timestamps option): `updated_at` becomes now. */
  function Stamped(q: Inquiry, now: int): (r: Inquiry)
    ensures r.updatedAt == now
    ensures r.(updatedAt := q.updatedAt) == q
  {
    q.(updatedAt := now)
  }

  /** Stamping never changes whether a document validates: no validator reads `updated_at`. */
  lemma StampKeepsValidity(q: Inquiry, now: int, at: int)
    ensures ValidationErrors(Stamped(q, now), at) == ValidationErrors(q, at)
  {
    var s := Stamped(q, now);
    assert FieldErrors(s, at) == FieldErrors(q, at) by {
      forall p | p in FieldPaths ensures Fails(s, p, at) == Fails(q, p, at) {
      }
    }
    assert EnumErrors(s) == EnumErrors(q) by {
      assert s.budget == q.budget && s.status == q.status && s.priority == q.priority;
    }
  }

  function CreatedAt(q: Inquiry): int
  {
    q.createdAt
  }

  /** `Inquiry.getByStatus(status)`: the inquiries with that status, newest first. */
  function GetByStatus(docs: seq<Inquiry>, status: string): (r: seq<Inquiry>)
    ensures forall q :: multiset(r)[q] == if q.status == status then multiset(docs)[q] else 0
    ensures SortedDesc(r, CreatedAt)
  {
    SortDesc(Where(docs, (q: Inquiry) => q.status == status), CreatedAt)
  }

  /** `Inquiry.getRecent(limit = 10)`: the newest inquiries, as many as `.limit` lets through. */
  function GetRecent(docs: seq<Inquiry>, limit: Option<int>): (r: seq<Inquiry>)
    ensures |r| == LimitCount(if limit.Some? then limit.value else 10, |docs|)
    ensures limit.None? ==> |r| == if |docs| < 10 then |docs| else 10
    ensures multiset(r) <= multiset(docs)
    ensures SortedDesc(r, CreatedAt)
  {
    TopByKey(docs, CreatedAt, if limit.Some? then limit.value else 10)
  }

  /** What `getRecent` leaves out was never created later than anything it returns. */
  lemma GetRecentIsNewest(docs: seq<Inquiry>, limit: Option<int>)
    ensures var r := GetRecent(docs, limit);
      forall x, y :: x in r && y in multiset(docs) - multiset(r) ==> y.createdAt <= x.createdAt
  {
    TopByKeyKeepsLargest(docs, CreatedAt, if limit.Some? then limit.value else 10);
  }

  /** The `inquiries` collection. */
  class InquiryStore {
    var docs: seq<Inquiry>

    constructor ()
      ensures docs == []
    {
      docs := [];
    }

    /** `inquiry.save()` on a new document: validate, stamp `updated_at`, insert. */
    method Create(q: Inquiry, now: int) returns (errs: set<InquiryPath>)
      modifies this
      ensures errs == ValidationErrors(q, now)
      ensures docs == if errs == {} then old(docs) + [Stamped(q, now)] else old(docs)
    {
      errs := ValidationErrors(q, now);
      if errs == {} {
        docs := docs + [Stamped(q, now)];
      }
    }

    /** `doc.save()` for the document loaded from position `i`, now holding `q`: every path is
        validated again, and only `updated_at` is added to the caller's changes. */
    method Update(i: nat, q: Inquiry, now: int) returns (errs: set<InquiryPath>)
      requires i < |docs|
      modifies this
      ensures errs == ValidationErrors(q, now)
      ensures docs == if errs == {} then old(docs)[i := Stamped(q, now)] else old(docs)
    {
      errs := ValidationErrors(q, now);
      if errs == {} {
        docs := docs[i := Stamped(q, now)];
      }
    }
  }
}
