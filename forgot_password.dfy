/**
 * ForgotPasswordHandler: handles the submitted "forgot password" form. It
 * requires exactly one `email` value, asks the account store for a recovery
 * record for that address and, only when the store produces one, mails a
 * reset link built from the configured base URL, the identity-provider path,
 * `/resetpassword/` and the record id. Whatever the store answered, the
 * caller receives the same response naming the submitted address, so the
 * response does not reveal whether an account exists.
 */
module ForgotPassword {
  import opened Wrappers

  /** The parsed form body: every field name with the values submitted for it. */
  type Form = map<string, seq<string>>

  /** The error raised for a missing or repeated `email` field. */
  const EmailRequired: string := "Email required"

  const ResetSubject: string := "Reset your password"

  const ResetTextPrefix: string := "To reset your password, go to this link: "

  /** The response returned to the caller: `{type: 'response', details: {email}}`. */
  datatype Response = Response(email: string)

  /** One email as handed to the sender. */
  datatype Email = Email(recipient: string, subject: string, text: string, html: string)

  /** What the account store answers: no record (for whatever reason), or the new record's id. */
  datatype StoreOutcome = Fail | Ok(recordId: string)

  // ---------------------------------------------------------------------
  // Validation

  /** The submitted address: there must be exactly one `email` value. */
  function ParseEmail(form: Form): (r: Result<string, string>)
    ensures r.Success? <==> "email" in form && |form["email"]| == 1
    ensures r.Success? ==> r.value == form["email"][0]
    ensures r.Failure? ==> r.error == EmailRequired
  {
    if "email" in form && |form["email"]| == 1 then Success(form["email"][0])
    else Failure(EmailRequired)
  }

  // ---------------------------------------------------------------------
  // The reset link

  /** A part with no `/` at the end. */
  predicate OpenEnd(s: string) {
    |s| == 0 || s[|s| - 1] != '/'
  }

  /** A part with no `/` at the start. */
  predicate OpenStart(s: string) {
    |s| == 0 || s[0] != '/'
  }

  /** Nothing but slashes. */
  predicate AllSlashes(s: string) {
    forall i :: 0 <= i < |s| ==> s[i] == '/'
  }

  /** `s` without the run of slashes at its end. */
  function StripTrailingSlashes(s: string): string
  {
    if |s| > 0 && s[|s| - 1] == '/' then StripTrailingSlashes(s[..|s| - 1]) else s
  }

  /** `s` without the run of slashes at its start. */
  function StripLeadingSlashes(s: string): string
  {
    if |s| > 0 && s[0] == '/' then StripLeadingSlashes(s[1..]) else s
  }

  /** What stripping at the end leaves: a prefix without `/` at its end, only slashes cut off. */
  lemma {:induction false} TrailingStripped(s: string)
    ensures var r := StripTrailingSlashes(s);
            (r <= s && OpenEnd(r) && AllSlashes(s[|r|..]))
  {
    if |s| > 0 && s[|s| - 1] == '/' {
      TrailingStripped(s[..|s| - 1]);
      var r := StripTrailingSlashes(s);
      assert s[|r|..] == s[..|s| - 1][|r|..] + [s[|s| - 1]];
    }
  }

  /** What stripping at the start leaves: a suffix without `/` at its start, only slashes cut off. */
  lemma {:induction false} LeadingStripped(s: string)
    ensures var r := StripLeadingSlashes(s);
            (|r| <= |s| && r == s[|s| - |r|..] && OpenStart(r) && AllSlashes(s[..|s| - |r|]))
  {
    if |s| > 0 && s[0] == '/' {
      LeadingStripped(s[1..]);
      var r := StripLeadingSlashes(s);
      assert s[..|s| - |r|] == [s[0]] + s[1..][..|s[1..]| - |r|];
    }
  }

  /** Two URL parts joined with exactly one `/` between them, whatever slashes they carried at the seam. */
  function JoinUrl(a: string, b: string): string
  {
    StripTrailingSlashes(a) + "/" + StripLeadingSlashes(b)
  }

  /** Stripping a run of slashes from after a part that does not end in `/` gives the part back. */
  lemma {:induction false} StripTrailingOf(x: string, t: string)
    requires OpenEnd(x) && AllSlashes(t)
    ensures StripTrailingSlashes(x + t) == x
  {
    if t == [] {
      assert x + t == x;
    } else {
      var s := x + t;
      assert s[..|s| - 1] == x + t[..|t| - 1];
      StripTrailingOf(x, t[..|t| - 1]);
    }
  }

  /** Stripping a run of slashes from before a part that does not start with `/` gives the part back. */
  lemma {:induction false} StripLeadingOf(t: string, y: string)
    requires AllSlashes(t) && OpenStart(y)
    ensures StripLeadingSlashes(t + y) == y
  {
    if t == [] {
      assert t + y == y;
    } else {
      assert (t + y)[1..] == t[1..] + y;
      StripLeadingOf(t[1..], y);
    }
  }

  /**
   * The seam does not depend on how the parts are written: however many
   * slashes follow the first part and precede the second, one `/` joins them.
   */
  lemma JoinUrlSeam(x: string, y: string, slashesAfter: string, slashesBefore: string)
    requires OpenEnd(x) && OpenStart(y) && AllSlashes(slashesAfter) && AllSlashes(slashesBefore)
    ensures JoinUrl(x + slashesAfter, slashesBefore + y) == x + "/" + y
  {
    StripTrailingOf(x, slashesAfter);
    StripLeadingOf(slashesBefore, y);
  }

  /** The link mailed to the user: base URL, identity-provider path, `resetpassword` and the id, joined seam by seam. */
  function ResetLink(baseUrl: string, idpPath: string, recordId: string): string
  {
    JoinUrl(JoinUrl(JoinUrl(baseUrl, idpPath), "resetpassword"), recordId)
  }

  /** Three clean parts joined in two steps are separated by one `/` each, whatever slashes they carry at either seam. */
  lemma JoinUrlChain(x: string, y: string, z: string, slashesAfter: string, slashesBefore: string, slashesBeforeZ: string)
    requires OpenEnd(x) && OpenStart(y) && OpenEnd(y) && |y| > 0 && OpenStart(z)
    requires AllSlashes(slashesAfter) && AllSlashes(slashesBefore) && AllSlashes(slashesBeforeZ)
    ensures JoinUrl(JoinUrl(x + slashesAfter, slashesBefore + y), slashesBeforeZ + z) == x + "/" + y + "/" + z
  {
    JoinUrlSeam(x, y, slashesAfter, slashesBefore);
    var joined := x + "/" + y;
    assert OpenEnd(joined) by {
      assert joined[|joined| - 1] == y[|y| - 1];
    }
    JoinUrlSeam(joined, z, [], slashesBeforeZ);
    assert joined + [] == joined;
  }

  /**
   * With clean parts the link is the base, the path, `resetpassword` and the
   * id, each separated by exactly one `/`, however many slashes the base, the
   * path and the id carried at their seams.
   */
  lemma ResetLinkShape(base: string, path: string, recordId: string, slashesAfter: string, slashesBefore: string, slashesBeforeId: string)
    requires OpenEnd(base) && OpenStart(path) && OpenEnd(path) && |path| > 0 && OpenStart(recordId)
    requires AllSlashes(slashesAfter) && AllSlashes(slashesBefore) && AllSlashes(slashesBeforeId)
    ensures ResetLink(base + slashesAfter, slashesBefore + path, slashesBeforeId + recordId)
         == base + "/" + path + "/resetpassword/" + recordId
  {
    var prefix := base + "/" + path;
    RouteSpelling(prefix, recordId);
    JoinUrlChain(base, path, "resetpassword", slashesAfter, slashesBefore, []);
    assert [] + "resetpassword" == "resetpassword";
    JoinUrlSeam(prefix + "/" + "resetpassword", recordId, [], slashesBeforeId);
    assert prefix + "/" + "resetpassword" + [] == prefix + "/" + "resetpassword";
  }

  /**
   * The configured `http://test.com/base/` and `/idp` give
   * `http://test.com/base/idp/resetpassword/<id>`, slashes before the id
   * collapsing into the one after `resetpassword`.
   */
  lemma ResetLinkScenario(slashes: string, recordId: string)
    requires AllSlashes(slashes) && OpenStart(recordId)
    ensures ResetLink("http://test.com/base/", "/idp", slashes + recordId) == "http://test.com/base/idp/resetpassword/" + recordId
  {
    ScenarioSpelling(recordId);
    ResetLinkShape("http://test.com/base", "idp", recordId, "/", "/", slashes);
  }

  // ---------------------------------------------------------------------
  // Spellings of the reset link: identities between ways of writing the same
  // strings. They say nothing about the handler; they keep the link proofs
  // above small.

  /** The reset route between a prefix and an id, and the clean ends it has. */
  lemma RouteSpelling(prefix: string, recordId: string)
    ensures prefix + "/" + "resetpassword" + "/" + recordId == prefix + "/resetpassword/" + recordId
    ensures OpenStart("resetpassword") && OpenEnd("resetpassword")
    ensures OpenEnd(prefix + "/" + "resetpassword")
  {
    var lhs, rhs := "/" + "resetpassword" + "/", "/resetpassword/";
    assert |lhs| == |rhs|;
    assert forall i :: 0 <= i < |lhs| ==> lhs[i] == rhs[i];
    assert prefix + "/" + "resetpassword" + "/" + recordId == prefix + lhs + recordId;
    var joined := prefix + "/" + "resetpassword";
    assert joined[|joined| - 1] == 'd';
  }

  /** The scenario's base URL and path, split into clean parts and put back together. */
  lemma ScenarioSpelling(recordId: string)
    ensures "http://test.com/base" + "/" == "http://test.com/base/"
    ensures "/" + "idp" == "/idp"
    ensures OpenEnd("http://test.com/base") && OpenStart("idp") && OpenEnd("idp")
    ensures "http://test.com/base" + "/" + "idp" + "/resetpassword/" + recordId
         == "http://test.com/base/idp/resetpassword/" + recordId
  {
    var lhs, rhs := "http://test.com/base" + "/" + "idp" + "/resetpassword/", "http://test.com/base/idp/resetpassword/";
    assert |lhs| == |rhs|;
    assert forall i :: 0 <= i < |rhs| ==> lhs[i] == rhs[i];
    assert lhs + recordId == rhs + recordId;
  }

  // ---------------------------------------------------------------------
  // The handler as a function of its inputs

  /** The recovery email for `email`, with its link in the text and the rendered page as HTML. */
  function ResetMail(email: string, link: string, render: string -> string): (m: Email)
    ensures m.recipient == email && m.subject == ResetSubject
    ensures m.text == ResetTextPrefix + link && m.html == render(link)
  {
    Email(email, ResetSubject, ResetTextPrefix + link, render(link))
  }

  /** The mails a submission leads to, given what the store answers. */
  function MailsSent(form: Form, outcome: StoreOutcome, baseUrl: string, idpPath: string, render: string -> string): (mails: seq<Email>)
    ensures |mails| <= 1
    ensures |mails| == 1 <==> ParseEmail(form).Success? && outcome.Ok?
  {
    match ParseEmail(form)
    case Failure(_) => []
    case Success(email) =>
      match outcome
      case Fail => []
      case Ok(id) => [ResetMail(email, ResetLink(baseUrl, idpPath, id), render)]
  }

  /** What the store answers for a submission; an invalid form never reaches it. */
  function StoreAnswer(form: Form, answer: string -> StoreOutcome): (outcome: StoreOutcome)
    ensures ParseEmail(form).Failure? ==> outcome == Fail
    ensures ParseEmail(form).Success? ==> outcome == answer(ParseEmail(form).value)
  {
    match ParseEmail(form)
    case Failure(_) => Fail
    case Success(email) => answer(email)
  }

  /** What the caller receives: the uniform response, or the validation error. */
  function Reply(form: Form): (r: Result<Response, string>)
    ensures r.Success? <==> ParseEmail(form).Success?
    ensures r.Success? ==> r.value.email == form["email"][0]
    ensures r.Failure? ==> r.error == EmailRequired
  {
    match ParseEmail(form)
    case Failure(e) => Failure(e)
    case Success(email) => Success(Response(email))
  }

  /** A missing or repeated `email` field sends nothing, whatever the store would say. */
  lemma InvalidSendsNothing(form: Form, outcome: StoreOutcome, baseUrl: string, idpPath: string, render: string -> string)
    requires "email" !in form || |form["email"]| != 1
    ensures Reply(form) == Failure(EmailRequired)
    ensures MailsSent(form, outcome, baseUrl, idpPath, render) == []
  {
  }

  /** A failing store leads to no mail. */
  lemma StoreFailureSendsNothing(form: Form, baseUrl: string, idpPath: string, render: string -> string)
    ensures MailsSent(form, Fail, baseUrl, idpPath, render) == []
  {
  }

  /**
   * A new record leads to exactly one mail, to the submitted address, with
   * the fixed subject, the reset link in its text and the rendered page as
   * HTML.
   */
  lemma RecordSendsResetMail(email: string, recordId: string, baseUrl: string, idpPath: string, render: string -> string)
    ensures var link := ResetLink(baseUrl, idpPath, recordId);
            (MailsSent(map["email" := [email]], Ok(recordId), baseUrl, idpPath, render)
             == [Email(email, "Reset your password", "To reset your password, go to this link: " + link, render(link))])
  {
  }

  /** The configuration and record of the unit scenario give the expected mail. */
  lemma MailScenario(render: string -> string)
    ensures var link := "http://test.com/base/idp/resetpassword/123456";
            (MailsSent(map["email" := ["test@test.email"]], Ok("123456"), "http://test.com/base/", "/idp", render)
             == [Email("test@test.email", "Reset your password", "To reset your password, go to this link: " + link, render(link))])
  {
    assert [] + "123456" == "123456";
    ResetLinkScenario([], "123456");
    assert "http://test.com/base/idp/resetpassword/" + "123456" == "http://test.com/base/idp/resetpassword/123456";
    RecordSendsResetMail("test@test.email", "123456", "http://test.com/base/", "/idp", render);
  }

  // ---------------------------------------------------------------------
  // The collaborators and the handler

  /**
   * The account store as the handler sees it: its answer to each address is
   * fixed from outside, and every request made to it is logged.
   */
  class AccountStore {
    const answer: string -> StoreOutcome
    var requested: seq<string>

    constructor (answer: string -> StoreOutcome)
      ensures this.answer == answer && requested == []
    {
      this.answer := answer;
      requested := [];
    }

    /** `generateForgotPasswordRecord(email)`: a record id for `email`, or a failure. */
    method GenerateForgotPasswordRecord(email: string) returns (r: StoreOutcome)
      modifies this
      ensures r == answer(email)
      ensures requested == old(requested) + [email]
    {
      requested := requested + [email];
      r := answer(email);
    }
  }

  /** The email sender: an append-only log of the mails handed to it. */
  class EmailSender {
    var sent: seq<Email>

    constructor ()
      ensures sent == []
    {
      sent := [];
    }

    /** `handleSafe(mail)`: sends the mail; its own failures never reach the caller. */
    method HandleSafe(mail: Email)
      modifies this
      ensures sent == old(sent) + [mail]
    {
      sent := sent + [mail];
    }
  }

  class ForgotPasswordHandler {
    const baseUrl: string
    const idpPath: string
    const render: string -> string
    const store: AccountStore
    const sender: EmailSender

    constructor (baseUrl: string, idpPath: string, render: string -> string, store: AccountStore, sender: EmailSender)
      ensures this.baseUrl == baseUrl && this.idpPath == idpPath && this.render == render
      ensures this.store == store && this.sender == sender
    {
      this.baseUrl := baseUrl;
      this.idpPath := idpPath;
      this.render := render;
      this.store := store;
      this.sender := sender;
    }

    /**
     * `handle({request})`: validates the form, asks the store for a record
     * and mails the reset link when there is one. The reply depends on the
     * form alone; the store is asked only for a valid form, and the sender
     * gets the mails `MailsSent` describes.
     */
    method Handle(form: Form) returns (r: Result<Response, string>)
      modifies store, sender
      ensures r == Reply(form)
      ensures store.requested == old(store.requested) + (if ParseEmail(form).Success? then [form["email"][0]] else [])
      ensures sender.sent == old(sender.sent) + MailsSent(form, StoreAnswer(form, store.answer), baseUrl, idpPath, render)
    {
      var email := ParseEmail(form);
      if email.Failure? {
        return Failure(email.error);
      }
      var outcome := store.GenerateForgotPasswordRecord(email.value);
      if outcome.Ok? {
        var link := ResetLink(baseUrl, idpPath, outcome.recordId);
        sender.HandleSafe(ResetMail(email.value, link, render));
      }
      r := Success(Response(email.value));
    }
  }

  /**
   * Two handlers that differ only in their store, one whose store fails and
   * one whose store returns `recordId`, answer the same submission with the
   * same reply; only the second sends mail, and only for a valid form.
   */
  method StoreOutcomeHidden(form: Form, baseUrl: string, idpPath: string, render: string -> string, recordId: string)
    returns (failed: Result<Response, string>, succeeded: Result<Response, string>, failedMails: seq<Email>, succeededMails: seq<Email>)
    ensures failed == succeeded
    ensures failedMails == []
    ensures |succeededMails| == if ParseEmail(form).Success? then 1 else 0
  {
    var failingStore := new AccountStore((email: string) => Fail);
    var workingStore := new AccountStore((email: string) => Ok(recordId));
    var failingSender := new EmailSender();
    var workingSender := new EmailSender();
    var h1 := new ForgotPasswordHandler(baseUrl, idpPath, render, failingStore, failingSender);
    var h2 := new ForgotPasswordHandler(baseUrl, idpPath, render, workingStore, workingSender);
    failed := h1.Handle(form);
    succeeded := h2.Handle(form);
    failedMails := failingSender.sent;
    succeededMails := workingSender.sent;
  }
}
