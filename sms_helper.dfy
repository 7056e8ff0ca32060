/** The SOS alert: the checks before anything is sent, the message, the cleaning of phone
    numbers and the tally of messages sent and failed. Sending a text message is a foreign
    call; here it is the parameter `attempt`, which says for the contact at an index, its
    cleaned number and the message whether the send went through without an exception. */
module SmsHelper {
  import opened Common
  import opened Records
  import opened ProfileActivity

  // ---------------------------------------------------------------------------
  // Phone numbers

  /** A character that `[^0-9+]` does not match. */
  predicate IsDialChar(c: char) {
    '0' <= c <= '9' || c == '+'
  }

  /** `replace(Regex("[^0-9+]"), "")`: the number without anything but digits and '+'. */
  function CleanNumber(s: string): (r: string)
    ensures |r| <= |s|
    ensures forall i :: 0 <= i < |r| ==> IsDialChar(r[i])
  {
    if s == [] then []
    else if IsDialChar(s[0]) then [s[0]] + CleanNumber(s[1..])
    else CleanNumber(s[1..])
  }

  /** Cleaning works character by character: it cleans the two halves of a string apart, keeps
      a digit or '+' and drops anything else. */
  lemma {:induction false} CleanNumberAppend(a: string, b: string)
    ensures CleanNumber(a + b) == CleanNumber(a) + CleanNumber(b)
  {
    if a == [] {
      assert a + b == b;
    } else {
      assert (a + b)[0] == a[0] && (a + b)[1..] == a[1..] + b;
      CleanNumberAppend(a[1..], b);
    }
  }

  lemma CleanNumberChar(c: char)
    ensures CleanNumber([c]) == (if IsDialChar(c) then [c] else [])
  {
    assert [c][1..] == [];
  }

  /** A number of digits and '+' only is left as it is; in particular cleaning is idempotent. */
  lemma {:induction false} CleanNumberKeepsClean(s: string)
    requires forall i :: 0 <= i < |s| ==> IsDialChar(s[i])
    ensures CleanNumber(s) == s
  {
    if s != [] {
      CleanNumberKeepsClean(s[1..]);
      assert [s[0]] + s[1..] == s;
    }
  }

  lemma CleanNumberIdempotent(s: string)
    ensures CleanNumber(CleanNumber(s)) == CleanNumber(s)
  {
    CleanNumberKeepsClean(CleanNumber(s));
  }

  /** A number comes out empty exactly when it holds no digit and no '+'. */
  lemma {:induction false} CleanNumberEmpty(s: string)
    ensures CleanNumber(s) == [] <==> forall i :: 0 <= i < |s| ==> !IsDialChar(s[i])
  {
    if s != [] {
      CleanNumberEmpty(s[1..]);
      assert forall i :: 1 <= i < |s| ==> s[i] == s[1..][i - 1];
    }
  }

  // ---------------------------------------------------------------------------
  // The message

  const MessageHead: string := "\U{1F6A8} EMERGENCY ALERT \U{1F6A8}\n\n"
  const MessageTail: string := " needs help! This is an automated emergency message from CrimeTracking app.\n\nPlease check on them immediately!"

  /** The alert text around the sender's name. */
  function SosMessage(userName: string): (r: string)
    ensures |r| == |MessageHead| + |userName| + |MessageTail|
    ensures r[..|MessageHead|] == MessageHead && r[|r| - |MessageTail|..] == MessageTail
  {
    MessageHead + userName + MessageTail
  }

  /** The sender's name read back out of an alert text, if it has the alert's frame. */
  function NameInMessage(message: string): (r: Option<string>)
    ensures r.Some? ==> |r.value| + |MessageHead| + |MessageTail| == |message|
  {
    if |message| >= |MessageHead| + |MessageTail|
       && message[..|MessageHead|] == MessageHead
       && message[|message| - |MessageTail|..] == MessageTail
    then Some(message[|MessageHead|..|message| - |MessageTail|])
    else None
  }

  /** The alert carries the name unchanged: it can be read back out, so distinct names give
      distinct alerts. */
  lemma SosMessageNameRoundTrip(userName: string)
    ensures NameInMessage(SosMessage(userName)) == Some(userName)
  {
    var m := SosMessage(userName);
    assert m[|MessageHead|..|m| - |MessageTail|] == userName;
  }

  /** The result of looking up the user's profile for their name. */
  datatype NameLookup = Found(fullName: Option<string>) | LookupFailed

  /** `getString("fullName") ?: "A user"`, and "A user" when the lookup fails; a stored empty
      name is used as it is. */
  function SenderName(lookup: NameLookup): (r: string)
    ensures lookup.Found? && lookup.fullName.Some? ==> r == lookup.fullName.value
    ensures lookup.LookupFailed? || lookup.fullName.None? ==> r == "A user"
  {
    if lookup.Found? && lookup.fullName.Some? then lookup.fullName.value else "A user"
  }

  // ---------------------------------------------------------------------------
  // Sending

  /** Whether the contact at index `i` is sent the message: its number must be nonempty, and
      nonempty once cleaned, and the send must not throw. */
  predicate Delivered(contacts: seq<EmergencyContact>, i: nat, message: string,
                      attempt: (nat, string, string) -> bool)
    requires i < |contacts|
  {
    var number := contacts[i].phoneNumber;
    number != [] && CleanNumber(number) != [] && attempt(i, CleanNumber(number), message)
  }

  /** The number of the first `n` contacts that are sent the message. */
  function SuccessesOf(contacts: seq<EmergencyContact>, n: nat, message: string,
                       attempt: (nat, string, string) -> bool): (r: nat)
    requires n <= |contacts|
    ensures r <= n
  {
    if n == 0 then 0
    else SuccessesOf(contacts, n - 1, message, attempt)
         + (if Delivered(contacts, n - 1, message, attempt) then 1 else 0)
  }

  /** Contacts whose numbers clean to nothing are never sent the message: if no number holds
      a digit or '+', nobody is reached. */
  lemma {:induction false} NoDialableNumberNoSuccess(contacts: seq<EmergencyContact>, n: nat, message: string,
                                                     attempt: (nat, string, string) -> bool)
    requires n <= |contacts|
    requires forall i :: 0 <= i < n ==> CleanNumber(contacts[i].phoneNumber) == []
    ensures SuccessesOf(contacts, n, message, attempt) == 0
  {
    if n > 0 {
      NoDialableNumberNoSuccess(contacts, n - 1, message, attempt);
    }
  }

  /** When every number is dialable and every send goes through, every contact is reached. */
  lemma {:induction false} AllDeliveredAllSucceed(contacts: seq<EmergencyContact>, n: nat, message: string,
                                                  attempt: (nat, string, string) -> bool)
    requires n <= |contacts|
    requires forall i :: 0 <= i < n ==> Delivered(contacts, i, message, attempt)
    ensures SuccessesOf(contacts, n, message, attempt) == n
  {
    if n > 0 {
      AllDeliveredAllSucceed(contacts, n - 1, message, attempt);
    }
  }

  /** Why no alert was sent. */
  datatype SosError = NoPermission | NotLoggedIn | FetchFailed | NoContacts | NoneSent | SmsUnavailable

  /** The callback reached: `onSuccess(count)` or `onError`. */
  datatype SosResult = Success(count: nat) | Error(reason: SosError)

  /** `sendSmsToContacts`: every contact is counted once, as a success or a failure, and the
      alert succeeds exactly when at least one message went out. Without an SMS manager
      (`smsAvailable` false) nothing is sent. */
  method SendSmsToContacts(contacts: seq<EmergencyContact>, userName: string, smsAvailable: bool,
                           attempt: (nat, string, string) -> bool)
    returns (successCount: nat, failureCount: nat, result: SosResult)
    ensures !smsAvailable ==> successCount == 0 && failureCount == 0 && result == Error(SmsUnavailable)
    ensures smsAvailable ==> successCount == SuccessesOf(contacts, |contacts|, SosMessage(userName), attempt)
                             && successCount + failureCount == |contacts|
                             && (result == Success(successCount) <==> successCount > 0)
                             && (result.Error? <==> successCount == 0)
                             && (result.Error? ==> result.reason == NoneSent)
  {
    successCount, failureCount := 0, 0;
    if !smsAvailable {
      return 0, 0, Error(SmsUnavailable);
    }
    var message := SosMessage(userName);
    for i := 0 to |contacts|
      invariant successCount == SuccessesOf(contacts, i, message, attempt)
      invariant successCount + failureCount == i
    {
      var number := contacts[i].phoneNumber;
      if number == [] {
        failureCount := failureCount + 1;
        continue;
      }
      var cleanNumber := CleanNumber(number);
      if cleanNumber == [] {
        failureCount := failureCount + 1;
        continue;
      }
      if attempt(i, cleanNumber, message) {
        successCount := successCount + 1;
      } else {
        failureCount := failureCount + 1;
      }
    }
    if successCount > 0 {
      result := Success(successCount);
    } else {
      result := Error(NoneSent);
    }
  }

  /** The contacts read from the stored documents, in order. */
  function ContactsOf(documents: seq<ContactDocument>): (r: seq<EmergencyContact>)
    ensures |r| == |documents|
    ensures forall i :: 0 <= i < |r| ==> r[i] == ContactOf(documents[i])
  {
    seq(|documents|, i requires 0 <= i < |documents| => ContactOf(documents[i]))
  }

  /** `sendSOSToEmergencyContacts`: without the permission, a signed-in user, the contact
      documents (`None` when the fetch fails) or at least one of them, the error callback is
      reached and nothing is sent; otherwise every contact document is sent the alert under
      the looked-up name. */
  method SendSos(hasPermission: bool, user: Option<AuthUser>, documents: Option<seq<ContactDocument>>,
                 lookup: NameLookup, smsAvailable: bool, attempt: (nat, string, string) -> bool)
    returns (successCount: nat, failureCount: nat, result: SosResult)
    ensures !hasPermission ==> result == Error(NoPermission)
    ensures hasPermission && user.None? ==> result == Error(NotLoggedIn)
    ensures hasPermission && user.Some? && documents.None? ==> result == Error(FetchFailed)
    ensures hasPermission && user.Some? && documents == Some([]) ==> result == Error(NoContacts)
    ensures result.Error? && result.reason in {NoPermission, NotLoggedIn, FetchFailed, NoContacts}
            ==> successCount == 0 && failureCount == 0
    ensures hasPermission && user.Some? && documents.Some? && documents.value != [] && smsAvailable ==>
              var contacts := ContactsOf(documents.value);
              successCount == SuccessesOf(contacts, |contacts|, SosMessage(SenderName(lookup)), attempt)
              && successCount + failureCount == |contacts|
              && (result == Success(successCount) <==> successCount > 0)
              && (result.Error? ==> result.reason == NoneSent)
    ensures hasPermission && user.Some? && documents.Some? && documents.value != [] && !smsAvailable ==>
              result == Error(SmsUnavailable) && successCount == 0 && failureCount == 0
  {
    if !hasPermission {
      return 0, 0, Error(NoPermission);
    }
    if user.None? {
      return 0, 0, Error(NotLoggedIn);
    }
    if documents.None? {
      return 0, 0, Error(FetchFailed);
    }
    if documents.value == [] {
      return 0, 0, Error(NoContacts);
    }
    var contacts := ContactsOf(documents.value);
    successCount, failureCount, result := SendSmsToContacts(contacts, SenderName(lookup), smsAvailable, attempt);
  }
}
