/**
 * The `Contact` schema: setters and defaults, the validators run on save, the two static
 * queries, and `markAsContacted`, over the `contacts` collection.
 */
module ContactModel {
  import opened Js
  import opened Patterns
  import opened Query

  const Packages: set<string> := {"basic", "premium", "luxury", "custom"}
  const Statuses: set<string> := {"new", "contacted", "in-progress", "completed", "cancelled"}

  /** A stored contact. Required string fields hold "" when they were not given (the required
      validator refuses both); dates are milliseconds. */
  datatype Contact = Contact(
    id: nat,
    name: string,
    email: string,
    phone: string,
    weddingDate: Option<int>,
    package: Option<string>,
    guestCount: Option<string>,
    message: string,
    status: string,
    source: string,
    submittedAt: int,
    lastContactedAt: Option<int>,
    notes: Option<string>,
    createdAt: int,
    updatedAt: int)

  /** `new Contact({...})`: name and phone are trimmed, the email trimmed and lower-cased;
      status defaults to 'new', source to 'website', `submittedAt` and both timestamps to now. */
  function NewContact(id: nat, name: string, email: string, phone: string, weddingDate: Option<int>,
                      package: Option<string>, guestCount: Option<string>, message: string,
                      notes: Option<string>, now: int): Contact
  {
    Contact(id, Trim(name), ToLower(Trim(email)), Trim(phone), weddingDate, package, guestCount,
            message, "new", "website", now, None, notes, now, now)
  }

  datatype ContactPath =
    NamePath | EmailPath | PhonePath | WeddingDatePath | PackagePath | GuestCountPath | MessagePath | StatusPath

  /** The wedding date validator: an absent date passes, a given one must lie after now. */
  predicate WeddingDateOk(d: Option<int>, now: int)
  {
    d.None? || d.value > now
  }

  /** The guest-count validator: absent or empty passes, otherwise a number or a range. */
  predicate GuestCountOk(g: Option<string>)
  {
    !Truthy(g) || IsGuestCount(g.value)
  }

  const AllPaths: set<ContactPath> :=
    {NamePath, EmailPath, PhonePath, WeddingDatePath, PackagePath, GuestCountPath, MessagePath, StatusPath}

  /** Whether the validators of path `p` refuse `c` at time `now`: name required with length
      2..100, email required and (when non-empty) matching the email pattern, phone required,
      wedding date in the future, package and status within their enums when present, guest
      count a number or range, message required with length 10..1000. */
  predicate Fails(c: Contact, p: ContactPath, now: int)
  {
    match p
    case NamePath => !(2 <= JsLength(c.name) <= 100)
    case EmailPath => c.email == "" || !IsValidEmail(c.email)
    case PhonePath => c.phone == ""
    case WeddingDatePath => !WeddingDateOk(c.weddingDate, now)
    case PackagePath => c.package.Some? && c.package.value !in Packages
    case GuestCountPath => !GuestCountOk(c.guestCount)
    case MessagePath => !(10 <= JsLength(c.message) <= 1000)
    case StatusPath => c.status !in Statuses
  }

  /** The paths that fail validation at time `now`. */
  function ValidationErrors(c: Contact, now: int): (errs: set<ContactPath>)
    ensures NamePath in errs <==> !(2 <= JsLength(c.name) <= 100)
    ensures EmailPath in errs <==> !IsValidEmail(c.email)
    ensures PhonePath in errs <==> c.phone == ""
    ensures WeddingDatePath in errs <==> !WeddingDateOk(c.weddingDate, now)
    ensures PackagePath in errs <==> c.package.Some? && c.package.value !in Packages
    ensures GuestCountPath in errs <==> !GuestCountOk(c.guestCount)
    ensures MessagePath in errs <==> !(10 <= JsLength(c.message) <= 1000)
    ensures StatusPath in errs <==> c.status !in Statuses
  {
    set p | p in AllPaths && Fails(c, p, now)
  }

  /** A new contact starts as 'new' from 'website', which no status check refuses, and its
      email is stored in the form its setters produce. An email that the contact handler
      accepted is still valid after the setters run, since it has no whitespace to trim. */
  lemma NewContactDefaults(id: nat, name: string, email: string, phone: string, weddingDate: Option<int>,
                           package: Option<string>, guestCount: Option<string>, message: string,
                           notes: Option<string>, now: int)
    ensures var c := NewContact(id, name, email, phone, weddingDate, package, guestCount, message, notes, now);
      && c.status == "new" && c.source == "website" && StatusPath !in ValidationErrors(c, now)
      && c.submittedAt == now && c.lastContactedAt.None?
      && (IsValidEmail(email) ==> EmailPath !in ValidationErrors(c, now))
  {
    if IsValidEmail(email) {
      assert NoSpace(email);
      TrimNoSpace(email);
      LowerKeepsEmail(email);
    }
  }

  /** Lower-casing keeps a string within the email pattern: it touches neither whitespace, `@`
      nor `.`, and keeps every position. */
  lemma LowerKeepsEmail(s: string)
    requires IsValidEmail(s)
    ensures IsValidEmail(ToLower(s))
  {
    var l := ToLower(s);
    var i := IndexOf(s, '@');
    assert forall k :: 0 <= k < |s| ==> (l[k] == '@' <==> s[k] == '@');
    assert IndexOf(l, '@') == i by {
      IndexOfPointwise(s, l, '@');
    }
    assert NoSpace(l) by {
      forall k | 0 <= k < |l| ensures !IsSpace(l[k]) {
        assert !IsSpace(s[k]);
      }
    }
    assert forall k :: i < k < |l| ==> l[k] != '@';
    var j :| i + 2 <= j < |s| - 1 && s[j] == '.';
    assert l[j] == '.';
    assert l[i + 2..|l| - 1][j - i - 2] == '.';
  }

  /** Two strings that have the character `c` at the same positions have the same `indexOf(c)`. */
  lemma IndexOfPointwise(s: string, t: string, c: char)
    requires |s| == |t|
    requires forall k :: 0 <= k < |s| ==> (s[k] == c <==> t[k] == c)
    ensures IndexOf(s, c) == IndexOf(t, c)
  {
  }

  function SubmittedAt(c: Contact): int
  {
    c.submittedAt
  }

  /** `Contact.getByStatus(status)`: the contacts with that status, newest submission first. */
  function GetByStatus(docs: seq<Contact>, status: string): (r: seq<Contact>)
    ensures forall c :: multiset(r)[c] == if c.status == status then multiset(docs)[c] else 0
    ensures SortedDesc(r, SubmittedAt)
  {
    SortDesc(Where(docs, (c: Contact) => c.status == status), SubmittedAt)
  }

  /** `Contact.getRecent(limit = 10)`: the newest submissions, as many as `.limit` lets
      through. */
  function GetRecent(docs: seq<Contact>, limit: Option<int>): (r: seq<Contact>)
    ensures |r| == LimitCount(if limit.Some? then limit.value else 10, |docs|)
    ensures limit.None? ==> |r| == if |docs| < 10 then |docs| else 10
    ensures multiset(r) <= multiset(docs)
    ensures SortedDesc(r, SubmittedAt)
  {
    TopByKey(docs, SubmittedAt, if limit.Some? then limit.value else 10)
  }

  /** What `getRecent` leaves out was never submitted later than anything it returns. */
  lemma GetRecentIsNewest(docs: seq<Contact>, limit: Option<int>)
    ensures var r := GetRecent(docs, limit);
      forall x, y :: x in r && y in multiset(docs) - multiset(r) ==> y.submittedAt <= x.submittedAt
  {
    TopByKeyKeepsLargest(docs, SubmittedAt, if limit.Some? then limit.value else 10);
  }

  /** The fields `markAsContacted` assigns before saving. */
  function MarkedAsContacted(c: Contact, now: int): (r: Contact)
    ensures r.status == "contacted" && r.lastContactedAt == Some(now)
    ensures r.(status := c.status, lastContactedAt := c.lastContactedAt) == c
  {
    c.(status := "contacted", lastContactedAt := Some(now))
  }

  /** Marking a contact fixes at most its status and breaks nothing: the re-validation on save
      refuses exactly the other paths that were already failing, so a contact whose wedding
      date is not in the future can never be marked. */
  lemma MarkRevalidates(c: Contact, now: int)
    ensures ValidationErrors(MarkedAsContacted(c, now), now) == ValidationErrors(c, now) - {StatusPath}
    ensures !WeddingDateOk(c.weddingDate, now) ==> ValidationErrors(MarkedAsContacted(c, now), now) != {}
  {
    var m := MarkedAsContacted(c, now);
    forall p | p != StatusPath ensures Fails(m, p, now) == Fails(c, p, now) {
    }
    assert !Fails(m, StatusPath, now);
  }

  /** The `contacts` collection. */
  class ContactStore {
    var docs: seq<Contact>

    constructor ()
      ensures docs == []
    {
      docs := [];
    }

    /** `contact.save()` on a new document: validate, stamp both timestamps, insert. A document
        that fails validation is not written. */
    method Create(c: Contact, now: int) returns (errs: set<ContactPath>)
      modifies this
      ensures errs == ValidationErrors(c, now)
      ensures docs == if errs == {} then old(docs) + [c.(createdAt := now, updatedAt := now)] else old(docs)
    {
      errs := ValidationErrors(c, now);
      if errs == {} {
        docs := docs + [c.(createdAt := now, updatedAt := now)];
      }
    }

    /** `contact.markAsContacted()` for the document at position `i`: set the status and
        `lastContactedAt`, then save, which validates every path again and stamps `updatedAt`.
        Only that document changes, and only in those three fields; a refused save changes
        nothing. */
    method MarkAsContacted(i: nat, now: int) returns (errs: set<ContactPath>)
      requires i < |docs|
      modifies this
      ensures errs == ValidationErrors(MarkedAsContacted(old(docs)[i], now), now)
      ensures errs == ValidationErrors(old(docs)[i], now) - {StatusPath}
      ensures |docs| == |old(docs)|
      ensures errs == {} ==>
        docs == old(docs)[i := old(docs)[i].(status := "contacted", lastContactedAt := Some(now), updatedAt := now)]
      ensures errs != {} ==> docs == old(docs)
    {
      var c := MarkedAsContacted(docs[i], now);
      MarkRevalidates(docs[i], now);
      errs := ValidationErrors(c, now);
      if errs == {} {
        docs := docs[i := c.(updatedAt := now)];
      }
    }
  }
}
