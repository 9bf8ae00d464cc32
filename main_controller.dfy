/**
 * The contact-form handler: four independent field checks that push their messages onto an
 * error list, a 400 reply when any fails, and otherwise an attempt to mail the submission.
 */
module MainController {
  import opened Js
  import opened Patterns

  /** `req.body` of the contact form. */
  datatype ContactForm = ContactForm(
    name: Option<string>,
    email: Option<string>,
    phone: Option<string>,
    weddingDate: Option<string>,
    package: Option<string>,
    message: Option<string>)

  /** The JSON body and HTTP status of the reply; `errors` is present only on a 400. */
  datatype JsonReply = JsonReply(status: nat, success: bool, message: string, errors: Option<seq<string>>)

  const NameError := "Nama harus diisi minimal 2 karakter"
  const EmailError := "Email tidak valid"
  const PhoneError := "Nomor telepon tidak valid"
  const MessageError := "Pesan harus diisi minimal 10 karakter"
  const InvalidData := "Data tidak valid"
  const MessageSent := "Pesan berhasil dikirim! Kami akan segera menghubungi Anda."
  const SendFailed := "Gagal mengirim pesan. Silakan coba lagi atau hubungi kami langsung."

  /** The four checks, in the order the handler runs them. */
  datatype Rule = NameRule | EmailRule | PhoneRule | MessageRule

  /** The name is given and at least two characters long once trimmed. */
  predicate NameOk(f: ContactForm)
  {
    Truthy(f.name) && JsLength(Trim(f.name.value)) >= 2
  }

  predicate EmailOk(f: ContactForm)
  {
    Truthy(f.email) && IsValidEmail(f.email.value)
  }

  predicate PhoneOk(f: ContactForm)
  {
    Truthy(f.phone) && IsValidPhone(f.phone.value)
  }

  /** The message is given and at least ten characters long once trimmed. */
  predicate MessageOk(f: ContactForm)
  {
    Truthy(f.message) && JsLength(Trim(f.message.value)) >= 10
  }

  /** The outcome of each check on one submission. */
  datatype Verdicts = Verdicts(name: bool, email: bool, phone: bool, message: bool)

  function Check(f: ContactForm): Verdicts
  {
    Verdicts(NameOk(f), EmailOk(f), PhoneOk(f), MessageOk(f))
  }

  predicate Passes(v: Verdicts, r: Rule)
  {
    match r
    case NameRule => v.name
    case EmailRule => v.email
    case PhoneRule => v.phone
    case MessageRule => v.message
  }

  predicate ContactValid(f: ContactForm)
  {
    NameOk(f) && EmailOk(f) && PhoneOk(f) && MessageOk(f)
  }

  function Position(r: Rule): nat
  {
    match r
    case NameRule => 0
    case EmailRule => 1
    case PhoneRule => 2
    case MessageRule => 3
  }

  function Message(r: Rule): string
  {
    match r
    case NameRule => NameError
    case EmailRule => EmailError
    case PhoneRule => PhoneError
    case MessageRule => MessageError
  }

  /** Each rule has its own message, so the error list names the failing rules exactly. */
  lemma MessagesDistinct(r1: Rule, r2: Rule)
    ensures Message(r1) == Message(r2) ==> r1 == r2
  {
    assert |NameError| == 35 && |EmailError| == 17 && |PhoneError| == 25 && |MessageError| == 37;
  }

  /** The rules that failed: each failing rule once, in the order the checks run, and no rule
      that passed. */
  function FailedRules(v: Verdicts): (rs: seq<Rule>)
    ensures forall r :: r in rs <==> !Passes(v, r)
    ensures forall i, j :: 0 <= i < j < |rs| ==> Position(rs[i]) < Position(rs[j])
    ensures rs == [] <==> v.name && v.email && v.phone && v.message
  {
    (if v.name then [] else [NameRule])
    + (if v.email then [] else [EmailRule])
    + (if v.phone then [] else [PhoneRule])
    + (if v.message then [] else [MessageRule])
  }

  function Messages(rs: seq<Rule>): (ms: seq<string>)
    ensures |ms| == |rs|
    ensures forall i :: 0 <= i < |rs| ==> ms[i] == Message(rs[i])
  {
    seq(|rs|, i requires 0 <= i < |rs| => Message(rs[i]))
  }

  /** The error list the handler builds: empty exactly when the submission is valid. */
  function ContactErrors(f: ContactForm): (errs: seq<string>)
    ensures errs == [] <==> ContactValid(f)
  {
    Messages(FailedRules(Check(f)))
  }

  /** Read in terms of messages: the error list holds a rule's message exactly when that rule
      fails, in the order name, email, phone, message, each at most once. */
  lemma ContactErrorsMeaning(f: ContactForm)
    ensures var errs := ContactErrors(f);
      && (NameError in errs <==> !NameOk(f))
      && (EmailError in errs <==> !EmailOk(f))
      && (PhoneError in errs <==> !PhoneOk(f))
      && (MessageError in errs <==> !MessageOk(f))
      && |errs| <= 4
  {
    var rs := FailedRules(Check(f));
    var errs := Messages(rs);
    forall r: Rule ensures Message(r) in errs <==> r in rs {
      if Message(r) in errs {
        var i :| 0 <= i < |errs| && errs[i] == Message(r);
        MessagesDistinct(rs[i], r);
      }
      if r in rs {
        var i :| 0 <= i < |rs| && rs[i] == r;
        assert errs[i] == Message(r);
      }
    }
    assert Message(NameRule) == NameError && Message(EmailRule) == EmailError;
    assert Message(PhoneRule) == PhoneError && Message(MessageRule) == MessageError;
  }

  lemma MessagesSnoc(rs: seq<Rule>, r: Rule)
    ensures Messages(rs + [r]) == Messages(rs) + [Message(r)]
  {
    assert forall i :: 0 <= i < |rs| ==> (rs + [r])[i] == rs[i];
  }

  /** The validation block: each check that fails pushes its message. */
  method ValidateContact(f: ContactForm) returns (errors: seq<string>)
    ensures errors == ContactErrors(f)
  {
    ghost var v := Check(f);
    ghost var rules: seq<Rule> := [];
    errors := [];
    if !NameOk(f) {
      MessagesSnoc(rules, NameRule);
      errors, rules := errors + [NameError], rules + [NameRule];
    }
    ghost var r1 := rules;
    assert r1 == (if v.name then [] else [NameRule]) && errors == Messages(r1);
    if !EmailOk(f) {
      MessagesSnoc(rules, EmailRule);
      errors, rules := errors + [EmailError], rules + [EmailRule];
    }
    ghost var r2 := rules;
    assert r2 == r1 + (if v.email then [] else [EmailRule]) && errors == Messages(r2);
    if !PhoneOk(f) {
      MessagesSnoc(rules, PhoneRule);
      errors, rules := errors + [PhoneError], rules + [PhoneRule];
    }
    ghost var r3 := rules;
    assert r3 == r2 + (if v.phone then [] else [PhoneRule]) && errors == Messages(r3);
    if !MessageOk(f) {
      MessagesSnoc(rules, MessageRule);
      errors, rules := errors + [MessageError], rules + [MessageRule];
    }
    assert rules == r3 + (if v.message then [] else [MessageRule]) && errors == Messages(rules);
  }

  /** The wedding date and the package take no part in validation. */
  lemma DateAndPackageNotValidated(f: ContactForm, date: Option<string>, pkg: Option<string>)
    ensures ContactErrors(f.(weddingDate := date, package := pkg)) == ContactErrors(f)
  {
  }

  /** Only the trimmed lengths count: surrounding a given name or message with whitespace
      never changes its verdict. */
  lemma PaddingKeepsVerdict(f: ContactForm, pad: string)
    requires forall k :: 0 <= k < |pad| ==> IsSpace(pad[k])
    requires Truthy(f.name) && Truthy(f.message)
    ensures NameOk(f.(name := Some(pad + f.name.value + pad))) == NameOk(f)
    ensures MessageOk(f.(message := Some(pad + f.message.value + pad))) == MessageOk(f)
  {
    TrimPadded(f.name.value, pad);
    TrimPadded(f.message.value, pad);
  }

  /** Leading whitespace across a concatenation. */
  lemma LeadingSpaceConcat(x: string, y: string)
    ensures LeadingSpace(x) < |x| ==> LeadingSpace(x + y) == LeadingSpace(x)
    ensures LeadingSpace(x) == |x| ==> LeadingSpace(x + y) == |x| + LeadingSpace(y)
  {
    var xy := x + y;
    var l := LeadingSpace(x);
    if l < |x| {
      assert xy[l] == x[l];
      LeadingSpaceUnique(xy, l);
    } else {
      var m := LeadingSpace(y);
      assert forall k :: |x| <= k < |x| + m ==> xy[k] == y[k - |x|];
      assert |x| + m < |xy| ==> xy[|x| + m] == y[m];
      LeadingSpaceUnique(xy, |x| + m);
    }
  }

  /** Trailing whitespace across a concatenation. */
  lemma TrailingSpaceConcat(x: string, y: string)
    ensures TrailingSpace(y) < |y| ==> TrailingSpace(x + y) == TrailingSpace(y)
    ensures TrailingSpace(y) == |y| ==> TrailingSpace(x + y) == TrailingSpace(x) + |y|
  {
    var xy := x + y;
    var t := TrailingSpace(y);
    if t < |y| {
      assert forall k :: |xy| - t <= k < |xy| ==> xy[k] == y[k - |x|];
      assert xy[|xy| - 1 - t] == y[|y| - 1 - t];
      TrailingSpaceUnique(xy, t);
    } else {
      var m := TrailingSpace(x);
      assert forall k :: |x| - m <= k < |x| ==> xy[k] == x[k];
      assert m < |x| ==> xy[|x| - 1 - m] == x[|x| - 1 - m];
      TrailingSpaceUnique(xy, m + |y|);
    }
  }

  /** The middle of `p + s + q` is `s`. */
  lemma MiddleSlice(p: string, s: string, q: string, i: nat, j: nat)
    requires i <= j <= |s|
    ensures (p + s + q)[|p| + i..|p| + j] == s[i..j]
  {
    var t := p + s + q;
    assert forall k :: 0 <= k < |s| ==> t[|p| + k] == s[k];
    assert forall k :: i <= k < j ==> t[|p| + i..|p| + j][k - i] == s[k];
  }

  /** Surrounding a string with whitespace does not change its trim. */
  lemma TrimPadded(s: string, pad: string)
    requires forall k :: 0 <= k < |pad| ==> IsSpace(pad[k])
    ensures Trim(pad + s + pad) == Trim(s)
  {
    var t := pad + s + pad;
    var a, e := LeadingSpace(s), TrimEndIndex(s);
    if a == |s| {
      assert LeadingSpace(t) == |t| by {
        PaddedBounds(s, pad);
      }
    } else {
      assert LeadingSpace(t) == |pad| + a && TrimEndIndex(t) == |pad| + e by {
        PaddedBounds(s, pad);
      }
      MiddleSlice(pad, s, pad, a, e);
    }
  }

  /** Where the trim of `pad + s + pad` starts and ends, measured in `s`. */
  lemma PaddedBounds(s: string, pad: string)
    requires forall k :: 0 <= k < |pad| ==> IsSpace(pad[k])
    ensures LeadingSpace(s) == |s| ==> LeadingSpace(pad + s + pad) == |pad + s + pad|
    ensures LeadingSpace(s) < |s| ==>
      LeadingSpace(pad + s + pad) == |pad| + LeadingSpace(s)
      && TrimEndIndex(pad + s + pad) == |pad| + TrimEndIndex(s)
  {
    var u := pad + s;
    var t := u + pad;
    var a := LeadingSpace(s);
    assert LeadingSpace(pad) == |pad| && TrailingSpace(pad) == |pad| by {
      LeadingSpaceUnique(pad, |pad|);
      TrailingSpaceUnique(pad, |pad|);
    }
    assert LeadingSpace(u) == |pad| + a by {
      LeadingSpaceConcat(pad, s);
    }
    LeadingSpaceConcat(u, pad);
    if a < |s| {
      assert TrailingSpace(s) < |s| - a by {
        assert !IsSpace(s[a]);
      }
      assert TrailingSpace(u) == TrailingSpace(s) by {
        TrailingSpaceConcat(pad, s);
      }
      assert TrailingSpace(t) == TrailingSpace(s) + |pad| by {
        TrailingSpaceConcat(u, pad);
      }
    }
  }

  /** After validation passes, the handler builds a transport and sends the mail. */
  datatype MailStep = TransportThrows | SendRejected | Delivered

  /** The reply for a given error list and mail step. */
  function Reply(errors: seq<string>, step: MailStep): (r: JsonReply)
    ensures errors != [] ==> r == JsonReply(400, false, InvalidData, Some(errors))
    ensures errors == [] && step == Delivered ==> r == JsonReply(200, true, MessageSent, None)
    ensures errors == [] && step != Delivered ==> r == JsonReply(500, false, SendFailed, None)
    ensures r.success <==> r.status == 200
  {
    if errors != [] then JsonReply(400, false, InvalidData, Some(errors))
    else if step == Delivered then JsonReply(200, true, MessageSent, None)
    else JsonReply(500, false, SendFailed, None)
  }

  /** `handleContactForm` as written: invalid input gets the 400 reply with its error list and
      no mail; valid input reaches `nodemailer.createTransporter`, which nodemailer does not
      export (its factory is `createTransport`), so the call throws and the reply is always
      the 500 one, whatever the mail server would have done. */
  method HandleContactForm(f: ContactForm) returns (reply: JsonReply, mailSent: bool)
    ensures reply == Reply(ContactErrors(f), TransportThrows)
    ensures !ContactValid(f) ==> reply.status == 400 && reply.errors == Some(ContactErrors(f))
    ensures ContactValid(f) ==> reply.status == 500 && reply.message == SendFailed
    ensures !reply.success && !mailSent
  {
    var errors := ValidateContact(f);
    if |errors| > 0 {
      return JsonReply(400, false, InvalidData, Some(errors)), false;
    }
    // the transport factory call throws before anything is sent
    reply, mailSent := Reply(errors, TransportThrows), false;
  }

  /** The handler with the transport built by `createTransport`: valid input is mailed, and the
      reply reports whether the mail server accepted it. */
  method HandleContactFormFixed(f: ContactForm, delivered: bool) returns (reply: JsonReply, mailSent: bool)
    ensures reply == Reply(ContactErrors(f), if delivered then Delivered else SendRejected)
    ensures mailSent <==> ContactValid(f)
    ensures reply.success <==> ContactValid(f) && delivered
    ensures !ContactValid(f) ==> reply.status == 400 && reply.errors == Some(ContactErrors(f))
  {
    var errors := ValidateContact(f);
    if |errors| > 0 {
      return JsonReply(400, false, InvalidData, Some(errors)), false;
    }
    mailSent := true;
    reply := Reply(errors, if delivered then Delivered else SendRejected);
  }
}
