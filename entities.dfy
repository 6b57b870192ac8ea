/** The values the Index page works on: contacts, post links and the result
    entries that pair them, plus the phone-number searches over lists of them
    that the page performs (`FirstOrDefault`, `All` and a `FindIndex` on the
    list). */
module Entities {

  /** A C# reference that may be null. */
  datatype Option<T> = None | Some(value: T)

  /** A contact: an optional display name and the phone number that keys it. */
  datatype Contact = Contact(name: Option<string>, phone: string)

  /** A scraped post: its address and its caption. */
  datatype PostLink = PostLink(uri: string, caption: string)

  /** One row of the result list (`PostLinkViewModel`). */
  datatype Entry = Entry(postLink: PostLink, contact: Contact)

  /** Some entry of `entries` carries `phone`. */
  predicate HasPhone(entries: seq<Entry>, phone: string)
  {
    exists i :: 0 <= i < |entries| && entries[i].contact.phone == phone
  }

  /** No two entries carry the same phone number. */
  predicate NoDuplicatePhones(entries: seq<Entry>)
  {
    forall i, j :: 0 <= i < j < |entries| ==> entries[i].contact.phone != entries[j].contact.phone
  }

  /** The invariant the page keeps for its result list: phone numbers are
      unique and none of them is empty. */
  predicate WellFormed(entries: seq<Entry>)
  {
    NoDuplicatePhones(entries) &&
    forall i :: 0 <= i < |entries| ==> entries[i].contact.phone != ""
  }

  /** `PostLinks.FindIndex(p => p.Contact.PhoneNumber == phone)`. `PostLinks`
      is declared as an `IList`, which has no `FindIndex`; the extension method
      the page calls is not part of this model, and its behaviour is taken to be
      that of `List<T>.FindIndex`: the index of the first entry carrying
      `phone`, or -1 when there is none. */
  function IndexOfPhone(entries: seq<Entry>, phone: string): (k: int)
    ensures -1 <= k < |entries|
    ensures k == -1 <==> !HasPhone(entries, phone)
    ensures 0 <= k ==> entries[k].contact.phone == phone
    ensures 0 <= k ==> forall j :: 0 <= j < k ==> entries[j].contact.phone != phone
  {
    if entries == [] then -1
    else if entries[0].contact.phone == phone then 0
    else
      var k := IndexOfPhone(entries[1..], phone);
      assert forall i :: 1 <= i < |entries| ==> entries[i] == entries[1..][i - 1];
      if k == -1 then -1 else k + 1
  }

  /** The index of the first contact of the directory whose phone number is
      `phone`, or |contacts| when there is none. */
  function FirstContactIndex(contacts: seq<Contact>, phone: string): (k: nat)
    ensures k <= |contacts|
    ensures k < |contacts| ==> contacts[k].phone == phone
    ensures forall j :: 0 <= j < k ==> contacts[j].phone != phone
  {
    if contacts == [] then 0
    else if contacts[0].phone == phone then 0
    else 1 + FirstContactIndex(contacts[1..], phone)
  }

  /** `contacts?.FirstOrDefault(c => c.PhoneNumber == phone)?.Name`: the name
      of the first directory contact with this phone number; null when the
      directory is null or holds no such contact. */
  function LookupName(directory: Option<seq<Contact>>, phone: string): (name: Option<string>)
    ensures directory.None? ==> name.None?
    ensures directory.Some? && (forall c :: c in directory.value ==> c.phone != phone) ==> name.None?
    ensures directory.Some? && name.Some? ==> exists c :: c in directory.value && c.phone == phone && c.name == name
  {
    match directory
    case None => None
    case Some(contacts) =>
      var k := FirstContactIndex(contacts, phone);
      if k < |contacts| then contacts[k].name else None
  }

  /** The name LookupName picks is that of the FIRST matching contact: an
      earlier contact with a different number never shadows it, and a later
      one with the same number is never consulted. */
  lemma {:induction false} LookupNameIsFirstMatch(contacts: seq<Contact>, phone: string, k: nat)
    requires k < |contacts| && contacts[k].phone == phone
    requires forall j :: 0 <= j < k ==> contacts[j].phone != phone
    ensures LookupName(Some(contacts), phone) == contacts[k].name
  {
  }
}
