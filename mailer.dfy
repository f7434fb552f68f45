/**
 * The mail helper: its configuration, read once from the environment, and the transactional-mail
 * request it builds for one call. Delivering the request over HTTP is not part of this model; a
 * call either fails because no API key is configured or yields the request payload.
 */
module Mailer {
  import opened Wrappers
  import opened Text

  const DefaultSenderEmail := "no-reply@yourdomain.com"
  const DefaultSenderName := "Tofar Logistics Agency"

  /** The environment variables the helper reads; None is an unset variable. */
  datatype Env = Env(
    brevoApiKey: Option<string>,
    sendinblueApiKey: Option<string>,
    brevoKey: Option<string>,
    brevoSenderEmail: Option<string>,
    zohoEmailUser: Option<string>,
    brevoSenderName: Option<string>)

  datatype Config = Config(apiKey: Option<string>, senderEmail: string, senderName: string)

  /** The JavaScript chain `a || b || c` over optional strings: the first truthy one, else `c`. */
  function FirstTruthy(a: Option<string>, b: Option<string>, c: Option<string>): (r: Option<string>)
    ensures Truthy(r) <==> Truthy(a) || Truthy(b) || Truthy(c)
    ensures Truthy(a) ==> r == a
    ensures !Truthy(a) && Truthy(b) ==> r == b
    ensures !Truthy(a) && !Truthy(b) ==> r == c
  {
    if Truthy(a) then a else if Truthy(b) then b else c
  }

  /**
   * The module-level constants: the key is the first of three variables that is set; the sender
   * address is the Brevo sender, else the Zoho user, else a fixed default; the sender name is the
   * configured one, else a fixed default. Neither sender field is ever empty.
   */
  function ConfigFrom(env: Env): (c: Config)
    ensures Truthy(c.apiKey) <==> Truthy(env.brevoApiKey) || Truthy(env.sendinblueApiKey) || Truthy(env.brevoKey)
    ensures Truthy(env.brevoApiKey) ==> c.apiKey == env.brevoApiKey
    ensures !Truthy(env.brevoApiKey) && Truthy(env.sendinblueApiKey) ==> c.apiKey == env.sendinblueApiKey
    ensures !Truthy(env.brevoApiKey) && !Truthy(env.sendinblueApiKey) ==> c.apiKey == env.brevoKey
    ensures c.senderEmail != "" && c.senderName != ""
    ensures !Truthy(env.brevoSenderEmail) && !Truthy(env.zohoEmailUser) ==> c.senderEmail == DefaultSenderEmail
    ensures Truthy(env.brevoSenderEmail) ==> c.senderEmail == env.brevoSenderEmail.value
    ensures !Truthy(env.brevoSenderEmail) && Truthy(env.zohoEmailUser) ==> c.senderEmail == env.zohoEmailUser.value
    ensures Truthy(env.brevoSenderName) ==> c.senderName == env.brevoSenderName.value
    ensures !Truthy(env.brevoSenderName) ==> c.senderName == DefaultSenderName
  {
    Config(
      FirstTruthy(env.brevoApiKey, env.sendinblueApiKey, env.brevoKey),
      Or(env.brevoSenderEmail, Or(env.zohoEmailUser, DefaultSenderEmail)),
      Or(env.brevoSenderName, DefaultSenderName))
  }

  /** The `to` argument: an array of addresses, or one string holding comma-separated addresses. */
  datatype To = AddressList(addresses: seq<string>) | AddressText(text: string)

  /** `.map(s => s.trim())` */
  function TrimAll(pieces: seq<string>): (r: seq<string>)
    ensures |r| == |pieces|
    ensures forall i :: 0 <= i < |r| ==> r[i] == Trim(pieces[i])
    decreases |pieces|
  {
    if pieces == [] then [] else [Trim(pieces[0])] + TrimAll(pieces[1..])
  }

  /** `.filter(Boolean)` on strings: drops the empty ones and keeps the order of the rest. */
  function NonEmpty(pieces: seq<string>): (r: seq<string>)
    ensures |r| <= |pieces|
    ensures forall e :: e in r <==> e in pieces && e != ""
    decreases |pieces|
  {
    if pieces == [] then []
    else (if pieces[0] == "" then [] else [pieces[0]]) + NonEmpty(pieces[1..])
  }

  lemma {:induction false} NonEmptyAppend(a: seq<string>, b: seq<string>)
    ensures NonEmpty(a + b) == NonEmpty(a) + NonEmpty(b)
    decreases |a|
  {
    if a == [] {
      assert a + b == b;
    } else {
      assert (a + b)[1..] == a[1..] + b;
      NonEmptyAppend(a[1..], b);
    }
  }

  lemma {:induction false} NonEmptyKeepsFilled(pieces: seq<string>)
    requires forall i :: 0 <= i < |pieces| ==> pieces[i] != ""
    ensures NonEmpty(pieces) == pieces
    decreases |pieces|
  {
    if pieces != [] {
      NonEmptyKeepsFilled(pieces[1..]);
    }
  }

  /** The pieces that hold something besides spaces, in their original order. */
  function NonBlank(pieces: seq<string>): (r: seq<string>)
    ensures |r| <= |pieces|
    ensures forall p :: p in r <==> p in pieces && !AllSpace(p)
    decreases |pieces|
  {
    if pieces == [] then []
    else (if AllSpace(pieces[0]) then [] else [pieces[0]]) + NonBlank(pieces[1..])
  }

  /** Trimming every piece and then dropping the empty ones trims exactly the non-blank pieces. */
  lemma {:induction false} TrimThenDropEmpty(pieces: seq<string>)
    ensures NonEmpty(TrimAll(pieces)) == TrimAll(NonBlank(pieces))
    decreases |pieces|
  {
    if pieces != [] {
      var rest := pieces[1..];
      var head := if AllSpace(pieces[0]) then [] else [pieces[0]];
      TrimThenDropEmpty(rest);
      assert TrimAll(pieces)[1..] == TrimAll(rest);
      TrimAllAppend(head, NonBlank(rest));
    }
  }

  /** An address as the helper passes it on: not empty, no surrounding spaces, no comma. */
  predicate CleanAddress(e: string) {
    e != "" && IsTrimmed(e) && ',' !in e
  }

  /**
   * The recipient list of one call. An array is used as given; a string is split at commas, each
   * piece trimmed, and the empty pieces dropped: the result is the non-blank pieces, trimmed, in
   * their order.
   */
  function Recipients(to: To): (r: seq<string>)
    ensures to.AddressList? ==> r == to.addresses
    ensures to.AddressText? ==> var kept := NonBlank(Split(to.text, ','));
      |r| == |kept| && forall i :: 0 <= i < |r| ==> r[i] == Trim(kept[i])
  {
    match to
    case AddressList(addresses) => addresses
    case AddressText(text) =>
      var pieces := Split(text, ',');
      TrimThenDropEmpty(pieces);
      NonEmpty(TrimAll(pieces))
  }

  /**
   * Every address taken from a string is clean and is the trimmed form of a non-blank piece, and
   * every non-blank piece contributes its trimmed form.
   */
  lemma TextRecipients(text: string)
    ensures forall e :: e in Recipients(AddressText(text)) ==> CleanAddress(e)
    ensures forall p :: p in Split(text, ',') && !AllSpace(p) ==> Trim(p) in Recipients(AddressText(text))
    ensures forall e :: e in Recipients(AddressText(text)) ==>
      exists p :: p in Split(text, ',') && !AllSpace(p) && e == Trim(p)
  {
    var pieces := Split(text, ',');
    JoinSplit(text, ',');
    CleanPieces(pieces);
    KeptPieces(pieces);
    var r := Recipients(AddressText(text));
    var kept := NonBlank(pieces);
    forall e | e in r
      ensures exists p :: p in pieces && !AllSpace(p) && e == Trim(p)
    {
      var i :| 0 <= i < |r| && r[i] == e;
      assert kept[i] in kept;
    }
  }

  lemma CleanPieces(pieces: seq<string>)
    requires forall i :: 0 <= i < |pieces| ==> ',' !in pieces[i]
    ensures forall e :: e in NonEmpty(TrimAll(pieces)) ==> CleanAddress(e)
  {
    var trimmed := TrimAll(pieces);
    forall e | e in NonEmpty(trimmed)
      ensures CleanAddress(e)
    {
      var i :| 0 <= i < |trimmed| && trimmed[i] == e;
      assert ',' !in pieces[i];
    }
  }

  lemma KeptPieces(pieces: seq<string>)
    ensures forall p :: p in pieces && !AllSpace(p) ==> Trim(p) in NonEmpty(TrimAll(pieces))
  {
    var trimmed := TrimAll(pieces);
    forall p | p in pieces && !AllSpace(p)
      ensures Trim(p) in NonEmpty(trimmed)
    {
      var i :| 0 <= i < |pieces| && pieces[i] == p;
      assert trimmed[i] == Trim(p);
    }
  }

  /** A comma splits a text into two address lists that follow each other, in order. */
  lemma RecipientsOfJoinedText(a: string, b: string)
    ensures Recipients(AddressText(a + [','] + b)) == Recipients(AddressText(a)) + Recipients(AddressText(b))
  {
    SplitAppend(a, b, ',');
    var pa, pb := Split(a, ','), Split(b, ',');
    TrimAllAppend(pa, pb);
    NonEmptyAppend(TrimAll(pa), TrimAll(pb));
  }

  lemma {:induction false} TrimAllAppend(a: seq<string>, b: seq<string>)
    ensures TrimAll(a + b) == TrimAll(a) + TrimAll(b)
    decreases |a|
  {
    if a == [] {
      assert a + b == b;
    } else {
      assert (a + b)[1..] == a[1..] + b;
      TrimAllAppend(a[1..], b);
    }
  }

  /** Clean addresses written out with commas come back as exactly the same list. */
  lemma RecipientsOfCommaList(emails: seq<string>)
    requires |emails| >= 1
    requires forall i :: 0 <= i < |emails| ==> CleanAddress(emails[i])
    ensures Recipients(AddressText(Join(emails, ','))) == emails
  {
    SplitJoin(emails, ',');
    assert TrimAll(emails) == emails;
    NonEmptyKeepsFilled(emails);
  }

  datatype Sender = Sender(name: string, email: string)
  datatype Recipient = Recipient(email: string)
  datatype Payload = Payload(sender: Sender, to: seq<Recipient>, subject: string, htmlContent: string)
  datatype MailError = ApiKeyNotConfigured

  /**
   * `sendMail(to, subject, html)`: fails exactly when no API key is configured; otherwise the
   * request names the configured sender and one recipient per address of `to`, in order.
   */
  function SendMail(cfg: Config, to: To, subject: string, html: string): (r: Result<Payload, MailError>)
    ensures r.Failure? <==> !Truthy(cfg.apiKey)
    ensures r.Success? ==> r.value.sender == Sender(cfg.senderName, cfg.senderEmail)
    ensures r.Success? ==> |r.value.to| == |Recipients(to)|
    ensures r.Success? ==> forall i :: 0 <= i < |r.value.to| ==> r.value.to[i].email == Recipients(to)[i]
    ensures r.Success? ==> r.value.subject == subject && r.value.htmlContent == html
  {
    if !Truthy(cfg.apiKey) then Failure(ApiKeyNotConfigured)
    else
      var recipients := Recipients(to);
      Success(Payload(
        Sender(cfg.senderName, cfg.senderEmail),
        seq(|recipients|, i requires 0 <= i < |recipients| => Recipient(recipients[i])),
        subject, html))
  }

  /** The addresses a request is sent to. */
  function Addresses(p: Payload): seq<string> {
    seq(|p.to|, i requires 0 <= i < |p.to| => p.to[i].email)
  }

  lemma AddressesAre(p: Payload, rs: seq<string>)
    requires |p.to| == |rs| && forall i :: 0 <= i < |p.to| ==> p.to[i].email == rs[i]
    ensures Addresses(p) == rs
  {
  }

  /** A sent request reaches exactly the recipient list, so a one-address text reaches that address. */
  lemma SendMailReachesRecipients(cfg: Config, to: To, subject: string, html: string)
    requires Truthy(cfg.apiKey)
    ensures SendMail(cfg, to, subject, html).Success?
    ensures Addresses(SendMail(cfg, to, subject, html).value) == Recipients(to)
    ensures to.AddressText? && CleanAddress(to.text) ==> Addresses(SendMail(cfg, to, subject, html).value) == [to.text]
  {
    AddressesAre(SendMail(cfg, to, subject, html).value, Recipients(to));
    if to.AddressText? && CleanAddress(to.text) {
      OneAddressText(to.text);
    }
  }

  /** A text holding one clean address yields exactly that address. */
  lemma OneAddressText(x: string)
    requires CleanAddress(x)
    ensures Recipients(AddressText(x)) == [x]
  {
    assert Join([x], ',') == x;
    RecipientsOfCommaList([x]);
  }
}
