/** The submit handler of `initializeForm` in js/main.js: three checks on
    the trimmed field values, the first failure cancelling the submission
    with an alert, and on success the submit button switched to its
    sending state. The browser then posts the form; that request is left
    out. A field whose element is missing is `None`. */
module MainContactForm {
  import opened Wrappers
  import opened JsText
  import opened EmailPattern
  import Worker

  /** The client-side checks, in the order the handler runs them. */
  datatype Check = NameCheck | EmailCheck | MessageCheck
  {
    function Rank(): nat
    {
      match this
      case NameCheck => 0
      case EmailCheck => 1
      case MessageCheck => 2
    }

    /** The text of the `alert` shown when the check fails. */
    function Alert(): string
    {
      match this
      case NameCheck => "Please enter your name (at least 2 characters)."
      case EmailCheck => "Please enter a valid email address."
      case MessageCheck => "Please enter a message (at least 10 characters)."
    }
  }

  /** The handler's chain: the first failing check, or `None` when the
      form may be submitted. */
  function ClientCheck(name: Option<string>, email: Option<string>, message: Option<string>): (r: Option<Check>)
    ensures r.None? ==> name.Some? && email.Some? && message.Some?
    ensures r.None? ==> Utf16Length(Trim(name.value)) >= 2 && Utf16Length(Trim(message.value)) >= 10
  {
    if !Truthy(name) || Utf16Length(Trim(name.value)) < 2 then Some(NameCheck)
    else if email.None? || !Matches(Trim(email.value), Client) then Some(EmailCheck)
    else if !Truthy(message) || Utf16Length(Trim(message.value)) < 10 then Some(MessageCheck)
    else None
  }

  /** Each check read on its own. */
  predicate CheckPasses(c: Check, name: Option<string>, email: Option<string>, message: Option<string>)
  {
    match c
    case NameCheck => name.Some? && Utf16Length(Trim(name.value)) >= 2
    case EmailCheck => email.Some? && Matches(Trim(email.value), Client)
    case MessageCheck => message.Some? && Utf16Length(Trim(message.value)) >= 10
  }

  /** The chain cancels with check `c` exactly when `c` fails and every
      earlier check passes; so it stops at the first failure, and it lets
      the form through only when all three pass. */
  lemma ClientReportsFirstFailure(c: Check, name: Option<string>, email: Option<string>, message: Option<string>)
    ensures ClientCheck(name, email, message) == Some(c)
        <==> (!CheckPasses(c, name, email, message)
              && forall c': Check :: c'.Rank() < c.Rank() ==> CheckPasses(c', name, email, message))
    ensures ClientCheck(name, email, message).None?
        <==> forall c': Check :: CheckPasses(c', name, email, message)
  {
    var nameOk := CheckPasses(NameCheck, name, email, message);
    var emailOk := CheckPasses(EmailCheck, name, email, message);
    var messageOk := CheckPasses(MessageCheck, name, email, message);
    assert nameOk <==> Truthy(name) && Utf16Length(Trim(name.value)) >= 2;
    assert messageOk <==> Truthy(message) && Utf16Length(Trim(message.value)) >= 10;
    assert ClientCheck(name, email, message)
      == if !nameOk then Some(NameCheck) else if !emailOk then Some(EmailCheck)
         else if !messageOk then Some(MessageCheck) else None;
    if ClientCheck(name, email, message).None? {
      forall c': Check ensures CheckPasses(c', name, email, message) {
      }
    } else {
      var f := ClientCheck(name, email, message).value;
      assert !CheckPasses(f, name, email, message);
    }
  }

  /** What the client's acceptance guarantees the worker: the required
      fields are there, the message is long enough, and the trimmed e-mail
      address also matches the worker's pattern. */
  lemma ClientAcceptedMeetsWorkerBasics(name: string, email: string, message: string)
    requires ClientCheck(Some(name), Some(email), Some(message)).None?
    ensures Worker.RulePasses(Worker.MissingRequired, Some(name), Some(email), None, Some(message))
    ensures Worker.RulePasses(Worker.MessageTooShort, Some(name), Some(email), None, Some(message))
    ensures Matches(Trim(email), Worker)
  {
    var t := Trim(email);
    assert Matches(t, Client);
    ClientStricterThanWorker(t);
    assert email != "" by {
      assert |t| > 0;
    }
    Utf16LengthTrim(message);
  }

  /** The client is looser about names than the worker: any two
      non-blank characters pass the client, while the worker only accepts
      letters, white space, apostrophes and hyphens. */
  lemma ClientLooserOnNames()
    ensures CheckPasses(NameCheck, Some("R2"), None, None)
    ensures Worker.ValidateFormData(Some("R2"), Some("a@b.io"), None, Some("0123456789"))
      == Some(Worker.NameCharacters)
  {
    var name := "R2";
    assert !IsWhiteSpace(name[0]) && !IsWhiteSpace(name[1]);
    assert LeadingWhiteSpace(name) == 0;
    assert Trim(name) == name;
    assert !Worker.NameChar(name[1]);
  }

  /** The submit button. */
  class SubmitButton {
    var disabled: bool
    var caption: string
    var opacity: string
    /** The alerts shown so far, oldest first. */
    var alerts: seq<string>

    constructor (caption: string)
      ensures !disabled && this.caption == caption && opacity == "" && alerts == []
    {
      disabled := false;
      this.caption := caption;
      opacity := "";
      alerts := [];
    }

    /** The `submit` listener. The result says whether the submission was
        cancelled (`e.preventDefault()`); a cancelled submission shows the
        failing check's alert and leaves the button alone, an accepted one
        shows no alert and puts the button in its sending state. */
    method OnSubmit(name: Option<string>, email: Option<string>, message: Option<string>)
      returns (prevented: bool)
      modifies this
      ensures prevented <==> ClientCheck(name, email, message).Some?
      ensures prevented ==>
        alerts == old(alerts) + [ClientCheck(name, email, message).value.Alert()]
        && disabled == old(disabled) && caption == old(caption) && opacity == old(opacity)
      ensures !prevented ==>
        alerts == old(alerts) && disabled && caption == "Sending..." && opacity == "0.7"
    {
      var failed := ClientCheck(name, email, message);
      if failed.Some? {
        alerts := alerts + [failed.value.Alert()];
        return true;
      }
      disabled := true;
      caption := "Sending...";
      opacity := "0.7";
      return false;
    }
  }
}
