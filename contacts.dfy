/** The contacts page: the add form and its guard, the search filter, the
    edit form with its save payload and cancel, and how a designation is
    shown. */
module Contacts {
  import opened Text
  import opened Seqs

  /** A contact row as the server returns it; any field may be missing. */
  datatype Contact = Contact(id: int, name: Option<string>, email: Option<string>,
                             company: Option<string>, designation: Option<string>,
                             linkedin: Option<string>, phone: Option<string>, role: Option<string>)

  /** The "add contact" form. */
  datatype NewContactForm = NewContactForm(name: string, email: string, company: string,
                                           designation: string, linkedin: string)

  /** The edit form. It is rebuilt with different field sets by edit, save
      and cancel, so a field may be absent. */
  datatype EditForm = EditForm(name: Option<string>, email: Option<string>, company: Option<string>,
                               designation: Option<string>, linkedin: Option<string>,
                               phone: Option<string>, role: Option<string>)

  /** What a save sends: every field a string. */
  datatype SavePayload = SavePayload(name: string, email: string, phone: string, company: string,
                                     role: string, designation: string, linkedin: string)

  function EmptyNewContact(): NewContactForm {
    NewContactForm("", "", "", "", "")
  }

  /** The add form may be sent once name, email, company and designation are
      filled; the LinkedIn field is optional. */
  predicate AddAllowed(f: NewContactForm) {
    f.name != "" && f.email != "" && f.company != "" && f.designation != ""
  }

  // ---------------------------------------------------------------------
  // Search

  /** A present, non-empty field containing the search text, ignoring case. */
  predicate FieldHit(o: Option<string>, search: string) {
    Truthy(o) && ContainsCI(o.value, search)
  }

  predicate ContactHit(search: string, c: Option<Contact>) {
    c.Some? &&
    (FieldHit(c.value.name, search) || FieldHit(c.value.email, search) ||
     FieldHit(c.value.company, search) || FieldHit(c.value.designation, search) ||
     FieldHit(c.value.linkedin, search))
  }

  /** The contacts listed for the search text (rows may be `null`). */
  function FilteredContacts(contacts: seq<Option<Contact>>, search: string): (r: seq<Option<Contact>>)
    ensures IsSubsequence(r, contacts)
    ensures forall k :: 0 <= k < |r| ==> r[k].Some? && ContactHit(search, r[k])
    ensures forall k :: 0 <= k < |contacts| && ContactHit(search, contacts[k]) ==> contacts[k] in r
  {
    Filter(contacts, (c: Option<Contact>) => ContactHit(search, c))
  }

  /** Even an empty search drops null rows and contacts whose five searched
      fields are all missing or empty, and keeps every other contact. */
  lemma EmptySearchKeepsNonBlank(c: Option<Contact>)
    ensures ContactHit("", c) <==>
              c.Some? && (Truthy(c.value.name) || Truthy(c.value.email) || Truthy(c.value.company) ||
                          Truthy(c.value.designation) || Truthy(c.value.linkedin))
  {
    if c.Some? {
      EmptyIsContained(OrElse(c.value.name, ""));
      EmptyIsContained(OrElse(c.value.email, ""));
      EmptyIsContained(OrElse(c.value.company, ""));
      EmptyIsContained(OrElse(c.value.designation, ""));
      EmptyIsContained(OrElse(c.value.linkedin, ""));
    }
  }

  // ---------------------------------------------------------------------
  // Edit and save

  /** The edit form filled from a contact (`handleEdit`). */
  function EditFormOf(c: Contact): (f: EditForm)
    ensures f.name == c.name && f.email == c.email && f.company == c.company && f.designation == c.designation
    ensures f.linkedin == Some(OrElse(c.linkedin, "")) && f.phone == Some(OrElse(c.phone, ""))
    ensures f.role == Some(OrElse(c.role, "user"))
  {
    EditForm(c.name, c.email, c.company, c.designation, Some(OrElse(c.linkedin, "")),
             Some(OrElse(c.phone, "")), Some(OrElse(c.role, "user")))
  }

  /** The payload of a save: a missing or empty field becomes "", a missing
      or empty role becomes "user". */
  function PayloadOf(f: EditForm): (p: SavePayload)
    ensures p.name == OrElse(f.name, "") && p.email == OrElse(f.email, "") && p.phone == OrElse(f.phone, "")
    ensures p.company == OrElse(f.company, "") && p.designation == OrElse(f.designation, "")
    ensures p.linkedin == OrElse(f.linkedin, "")
    ensures p.role != "" && (Truthy(f.role) ==> p.role == f.role.value)
  {
    SavePayload(OrElse(f.name, ""), OrElse(f.email, ""), OrElse(f.phone, ""), OrElse(f.company, ""),
                OrElse(f.role, "user"), OrElse(f.designation, ""), OrElse(f.linkedin, ""))
  }

  /** Editing a contact and saving it unchanged sends the contact's own
      fields, with "" for the missing ones and "user" for a missing role. */
  lemma EditThenSave(c: Contact)
    ensures PayloadOf(EditFormOf(c)) ==
              SavePayload(OrElse(c.name, ""), OrElse(c.email, ""), OrElse(c.phone, ""), OrElse(c.company, ""),
                          OrElse(c.role, "user"), OrElse(c.designation, ""), OrElse(c.linkedin, ""))
  {
  }

  /** What a designation cell shows: the designation unless it is
      missing or only white space, then "N/A". */
  function DesignationLabel(d: Option<string>): (r: string)
    ensures d.None? || AllSpace(d.value) ==> r == "N/A"
    ensures d.Some? && !AllSpace(d.value) ==> r == d.value
  {
    if d.Some? && d.value != "" && Trim(d.value) != "" then d.value
    else
      assert d.Some? ==> (Trim(d.value) == [] <==> AllSpace(d.value)) by {
        if d.Some? { TrimEmpty(d.value); }
      }
      "N/A"
  }

  // ---------------------------------------------------------------------
  // Page state

  class ContactsPage {
    var contacts: seq<Option<Contact>>
    var newContact: NewContactForm
    var editingId: Option<int>
    var editContact: EditForm

    constructor()
      ensures contacts == [] && newContact == EmptyNewContact() && editingId.None?
      ensures editContact == EditForm(Some(""), Some(""), Some(""), Some(""), Some(""), None, None)
    {
      contacts := [];
      newContact := EmptyNewContact();
      editingId := None;
      editContact := EditForm(Some(""), Some(""), Some(""), Some(""), Some(""), None, None);
    }

    /** `handleAdd` with the server's answer `accepted`: an incomplete form
        sends nothing; a complete one is sent as it stands and, when the
        server accepts it, the form empties. */
    method HandleAdd(accepted: bool) returns (sent: Option<NewContactForm>)
      modifies this
      ensures !AddAllowed(old(newContact)) ==> sent.None? && newContact == old(newContact)
      ensures AddAllowed(old(newContact)) ==> sent == Some(old(newContact))
      ensures AddAllowed(old(newContact)) && accepted ==> newContact == EmptyNewContact()
      ensures !accepted ==> newContact == old(newContact)
      ensures contacts == old(contacts) && editingId == old(editingId) && editContact == old(editContact)
    {
      if newContact.name == "" || newContact.email == "" || newContact.company == "" || newContact.designation == "" {
        return None;
      }
      sent := Some(newContact);
      if accepted {
        newContact := EmptyNewContact();
      }
    }

    /** `handleEdit`: the row's contact fills the edit form. */
    method HandleEdit(c: Contact)
      modifies this
      ensures editingId == Some(c.id) && editContact == EditFormOf(c)
      ensures contacts == old(contacts) && newContact == old(newContact)
    {
      editingId := Some(c.id);
      editContact := EditFormOf(c);
    }

    /** `handleSave` with the server's answer `accepted`: the payload is
        sent; on success editing ends and the form is reset. */
    method HandleSave(accepted: bool) returns (sent: SavePayload)
      modifies this
      ensures sent == PayloadOf(old(editContact))
      ensures accepted ==> editingId.None?
      ensures accepted ==> editContact == EditForm(Some(""), Some(""), Some(""), Some(""), Some(""), Some(""), Some("user"))
      ensures !accepted ==> editingId == old(editingId) && editContact == old(editContact)
      ensures contacts == old(contacts) && newContact == old(newContact)
    {
      sent := PayloadOf(editContact);
      if accepted {
        editingId := None;
        editContact := EditForm(Some(""), Some(""), Some(""), Some(""), Some(""), Some(""), Some("user"));
      }
    }

    /** `handleCancel`: editing ends and the five visible fields empty. */
    method HandleCancel()
      modifies this
      ensures editingId.None?
      ensures editContact == EditForm(Some(""), Some(""), Some(""), Some(""), Some(""), None, None)
      ensures contacts == old(contacts) && newContact == old(newContact)
    {
      editingId := None;
      editContact := EditForm(Some(""), Some(""), Some(""), Some(""), Some(""), None, None);
    }
  }

  /** A save right after a cancel sends empty strings and the default role. */
  lemma SaveAfterCancel()
    ensures PayloadOf(EditForm(Some(""), Some(""), Some(""), Some(""), Some(""), None, None))
         == SavePayload("", "", "", "", "user", "", "")
  {
  }
}
