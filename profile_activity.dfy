/** The profile screen: the name split, the checks of the change-e-mail, change-password and
    contact dialogs, and the list of at most three emergency contacts it keeps in step with
    the store. */
module ProfileActivity {
  import opened Common
  import opened Records

  const MaxEmergencyContacts: nat := 3

  // ---------------------------------------------------------------------------
  // The profile name

  /** `fullName.split(" ", limit = 2)`: the first name is everything before the first space,
      the last name everything after it, or "" when there is no space. */
  function SplitName(fullName: string): (r: (string, string))
    ensures ' ' !in r.0
    ensures ' ' in fullName ==> r.0 + " " + r.1 == fullName
    ensures ' ' !in fullName ==> r.0 == fullName && r.1 == ""
  {
    var first := SubstringBefore(fullName, ' ');
    if |first| < |fullName| then
      assert fullName == first + " " + fullName[|first| + 1..];
      (first, fullName[|first| + 1..])
    else (first, "")
  }

  /** The first name is the longest space-free start of the name, and no part is lost. */
  lemma SplitNameLongest(fullName: string)
    ensures var (first, last) := SplitName(fullName);
            |first| <= |fullName| && first == fullName[..|first|]
            && (|first| < |fullName| ==> fullName[|first|] == ' ' && last == fullName[|first| + 1..])
  {
  }

  // ---------------------------------------------------------------------------
  // Dialog checks

  datatype ContactCheck = NameRequired | RelationRequired | PhoneRequired
                        | ContactAccepted(name: string, relation: string, phone: string)

  /** The save button of the add and edit dialogs: the trimmed name, relation and phone must
      be nonempty, checked in that order; only the first empty field is flagged. */
  function CheckContact(nameInput: string, relationInput: string, phoneInput: string): (r: ContactCheck)
    ensures r.NameRequired? <==> AllWhitespace(nameInput)
    ensures r.RelationRequired? <==> !AllWhitespace(nameInput) && AllWhitespace(relationInput)
    ensures r.PhoneRequired? <==> !AllWhitespace(nameInput) && !AllWhitespace(relationInput)
                                  && AllWhitespace(phoneInput)
    ensures r.ContactAccepted? ==> r.name == Trim(nameInput) && r.relation == Trim(relationInput)
                                   && r.phone == Trim(phoneInput)
                                   && r.name != [] && r.relation != [] && r.phone != []
  {
    var name, relation, phone := Trim(nameInput), Trim(relationInput), Trim(phoneInput);
    if |name| == 0 then NameRequired
    else if |relation| == 0 then RelationRequired
    else if |phone| == 0 then PhoneRequired
    else ContactAccepted(name, relation, phone)
  }

  datatype PasswordCheck = CurrentPasswordRequired | NewPasswordTooShort | PasswordsDiffer
                         | PasswordAccepted(current: string, newPassword: string)

  /** The change-password dialog: the current password must be nonempty, the new one at
      least 6 characters, and its confirmation equal to it, checked in that order; nothing is
      trimmed. */
  function CheckPasswordChange(current: string, newPassword: string, confirm: string): (r: PasswordCheck)
    ensures r.CurrentPasswordRequired? <==> current == []
    ensures r.NewPasswordTooShort? <==> current != [] && |newPassword| < 6
    ensures r.PasswordsDiffer? <==> current != [] && |newPassword| >= 6 && newPassword != confirm
    ensures r.PasswordAccepted? <==> current != [] && |newPassword| >= 6 && newPassword == confirm
    ensures r.PasswordAccepted? ==> r.current == current && r.newPassword == newPassword
  {
    if |current| == 0 then CurrentPasswordRequired
    else if |newPassword| < 6 then NewPasswordTooShort
    else if newPassword != confirm then PasswordsDiffer
    else PasswordAccepted(current, newPassword)
  }

  datatype EmailCheck = InvalidEmail | PasswordRequired | EmailAccepted(newEmail: string, password: string)

  /** The change-e-mail dialog: the trimmed address must be nonempty and pass the platform's
      e-mail pattern `isEmail`, then the (untrimmed) password must be nonempty. */
  function CheckEmailChange(emailInput: string, password: string, isEmail: string -> bool): (r: EmailCheck)
    ensures r.InvalidEmail? <==> AllWhitespace(emailInput) || !isEmail(Trim(emailInput))
    ensures r.PasswordRequired? <==> !AllWhitespace(emailInput) && isEmail(Trim(emailInput)) && password == []
    ensures r.EmailAccepted? ==> r.newEmail == Trim(emailInput) && r.newEmail != []
                                 && isEmail(r.newEmail) && r.password == password && password != []
  {
    var newEmail := Trim(emailInput);
    if |newEmail| == 0 || !isEmail(newEmail) then InvalidEmail
    else if |password| == 0 then PasswordRequired
    else EmailAccepted(newEmail, password)
  }

  // ---------------------------------------------------------------------------
  // The contact list

  /** A stored contact document: its id and the string fields it may lack. */
  datatype ContactDocument = ContactDocument(id: string, name: Option<string>,
                                             relation: Option<string>, phoneNumber: Option<string>)

  /** `getString(field) ?: ""`. */
  function FieldOr(field: Option<string>): (r: string)
    ensures field.Some? ==> r == field.value
    ensures field.None? ==> r == ""
  {
    if field.Some? then field.value else ""
  }

  /** The contact a loaded document becomes; a missing field is read as "". */
  function ContactOf(doc: ContactDocument): (r: EmergencyContact)
    ensures r.id == doc.id
    ensures r.name == FieldOr(doc.name) && r.relation == FieldOr(doc.relation)
    ensures r.phoneNumber == FieldOr(doc.phoneNumber)
  {
    EmergencyContact(doc.id, FieldOr(doc.name), FieldOr(doc.relation), FieldOr(doc.phoneNumber))
  }

  /** `indexOf`: the position of the first element equal to `x`, or -1. */
  function FirstIndexOf(s: seq<EmergencyContact>, x: EmergencyContact): (r: int)
    ensures -1 <= r < |s|
    ensures r == -1 <==> x !in s
    ensures r >= 0 ==> s[r] == x && x !in s[..r]
  {
    if s == [] then -1
    else if s[0] == x then 0
    else
      var k := FirstIndexOf(s[1..], x);
      if k == -1 then -1
      else
        assert s[..k + 1] == [s[0]] + s[1..][..k];
        k + 1
  }

  /** The list after an edit is saved: the first element equal to the edited contact becomes
      the new fields under the same id; without such an element nothing changes. */
  function ReplaceFirst(s: seq<EmergencyContact>, contact: EmergencyContact,
                        name: string, relation: string, phone: string): (r: seq<EmergencyContact>)
    ensures |r| == |s|
    ensures contact !in s ==> r == s
  {
    var i := FirstIndexOf(s, contact);
    if i == -1 then s else s[i := EmergencyContact(contact.id, name, relation, phone)]
  }

  /** The list after a deletion: the first element equal to the contact is removed. */
  function RemoveFirst(s: seq<EmergencyContact>, contact: EmergencyContact): (r: seq<EmergencyContact>)
    ensures |r| == if contact in s then |s| - 1 else |s|
    ensures contact !in s ==> r == s
  {
    var i := FirstIndexOf(s, contact);
    if i == -1 then s else s[..i] + s[i + 1..]
  }

  /** An edit changes exactly one element, the first equal one, and keeps its id; its
      neighbours and the length stay as they were. */
  lemma ReplaceFirstChangesOne(s: seq<EmergencyContact>, contact: EmergencyContact,
                               name: string, relation: string, phone: string)
    ensures var r := ReplaceFirst(s, contact, name, relation, phone);
            |r| == |s|
            && (contact !in s ==> r == s)
            && (contact in s ==> exists i :: 0 <= i < |s| && s[i] == contact && contact !in s[..i]
                                   && r[i] == EmergencyContact(contact.id, name, relation, phone)
                                   && r[i].id == s[i].id
                                   && forall j :: 0 <= j < |s| && j != i ==> r[j] == s[j])
  {
    var i := FirstIndexOf(s, contact);
    if i != -1 {
      var r := ReplaceFirst(s, contact, name, relation, phone);
      assert r[i] == EmergencyContact(contact.id, name, relation, phone);
    }
  }

  /** A deletion removes one occurrence of the contact, the first, and keeps the rest in
      order; without such an element nothing changes. */
  lemma RemoveFirstRemovesOne(s: seq<EmergencyContact>, contact: EmergencyContact)
    ensures var r := RemoveFirst(s, contact);
            (contact !in s ==> r == s)
            && (contact in s ==> |r| == |s| - 1 && multiset(r) + multiset{contact} == multiset(s)
                                 && exists i :: 0 <= i < |s| && s[i] == contact && contact !in s[..i]
                                                && r == s[..i] + s[i + 1..])
  {
    var i := FirstIndexOf(s, contact);
    if i != -1 {
      assert s == s[..i] + [s[i]] + s[i + 1..];
    }
  }

  /** The screen's copy of the contact list and the state of its add button. */
  class ProfileScreen {
    var contacts: seq<EmergencyContact>
    var addEnabled: bool

    /** The add button is enabled exactly while fewer than three contacts are held. */
    predicate Valid()
      reads this
    {
      addEnabled <==> |contacts| < MaxEmergencyContacts
    }

    constructor ()
      ensures contacts == [] && addEnabled && Valid()
    {
      contacts := [];
      addEnabled := true;
    }

    /** A tap on the add button opens the dialog only below the cap. */
    function OpensAddDialog(): (r: bool)
      reads this
      ensures r <==> |contacts| < MaxEmergencyContacts
    {
      |contacts| < MaxEmergencyContacts
    }

    /** `updateEmptyState`: the add button follows the cap. */
    method UpdateEmptyState()
      modifies this
      ensures contacts == old(contacts) && Valid()
    {
      addEnabled := |contacts| < MaxEmergencyContacts;
    }

    /** `loadEmergencyContacts` once the documents have arrived: the list is cleared and one
        contact per document appended, in order. */
    method OnContactsLoaded(documents: seq<ContactDocument>)
      modifies this
      ensures |contacts| == |documents|
      ensures forall i :: 0 <= i < |documents| ==> contacts[i] == ContactOf(documents[i])
      ensures Valid()
    {
      contacts := [];
      for i := 0 to |documents|
        invariant |contacts| == i
        invariant forall j :: 0 <= j < i ==> contacts[j] == ContactOf(documents[j])
      {
        contacts := contacts + [ContactOf(documents[i])];
      }
      UpdateEmptyState();
    }

    /** `addEmergencyContact` once the store has assigned `documentId`: the contact is
        appended. The cap is not checked again here. */
    method OnContactAdded(documentId: string, name: string, relation: string, phone: string)
      modifies this
      ensures contacts == old(contacts) + [EmergencyContact(documentId, name, relation, phone)]
      ensures Valid()
    {
      contacts := contacts + [EmergencyContact(documentId, name, relation, phone)];
      UpdateEmptyState();
    }

    /** `updateEmergencyContact` once the store has accepted the edit. The add button is not
        refreshed, and needs not be: the length does not change. */
    method OnContactUpdated(contact: EmergencyContact, name: string, relation: string, phone: string)
      requires Valid()
      modifies this
      ensures contacts == ReplaceFirst(old(contacts), contact, name, relation, phone)
      ensures addEnabled == old(addEnabled) && Valid()
    {
      var position := FirstIndexOf(contacts, contact);
      if position != -1 {
        contacts := contacts[position := EmergencyContact(contact.id, name, relation, phone)];
      }
    }

    /** `deleteEmergencyContact` once the store has deleted the document. */
    method OnContactDeleted(contact: EmergencyContact)
      requires Valid()
      modifies this
      ensures contacts == RemoveFirst(old(contacts), contact)
      ensures Valid()
    {
      var position := FirstIndexOf(contacts, contact);
      if position != -1 {
        contacts := contacts[..position] + contacts[position + 1..];
        UpdateEmptyState();
      }
    }
  }
}
