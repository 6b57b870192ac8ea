/** The two edits the user can make to the result list: blocking a number
    (which drops its entry) and renaming a contact. */
module ResultEdits {
  import opened Entities

  /** `List.RemoveAt(k)`: the list without its k-th entry, the others in
      their order. */
  function RemoveAt(entries: seq<Entry>, k: nat): (r: seq<Entry>)
    requires k < |entries|
    ensures |r| == |entries| - 1
    ensures forall j :: 0 <= j < k ==> r[j] == entries[j]
    ensures forall j :: k <= j < |r| ==> r[j] == entries[j + 1]
    ensures multiset(r) + multiset{entries[k]} == multiset(entries)
  {
    assert entries == entries[..k] + [entries[k]] + entries[k + 1..];
    entries[..k] + entries[k + 1..]
  }

  /** The in-place `Contact.Name = name` on the k-th entry. */
  function RenameAt(entries: seq<Entry>, k: nat, name: Option<string>): (r: seq<Entry>)
    requires k < |entries|
    ensures |r| == |entries|
    ensures r[k].contact.name == name
    ensures r[k].contact.phone == entries[k].contact.phone && r[k].postLink == entries[k].postLink
    ensures forall j :: 0 <= j < |r| && j != k ==> r[j] == entries[j]
  {
    entries[k := entries[k].(contact := entries[k].contact.(name := name))]
  }

  /** Blocking a number in a well-formed list removes exactly the entry that
      carries it: the number is gone, every other number is still there, and
      the list stays well-formed. */
  lemma BlockRemovesOnlyThatPhone(entries: seq<Entry>, phone: string)
    requires WellFormed(entries)
    requires HasPhone(entries, phone)
    ensures var r := RemoveAt(entries, IndexOfPhone(entries, phone));
      WellFormed(r) &&
      !HasPhone(r, phone) &&
      forall p :: p != phone ==> (HasPhone(r, p) <==> HasPhone(entries, p))
  {
    var k := IndexOfPhone(entries, phone);
    var r := RemoveAt(entries, k);
    forall p | p != phone
      ensures HasPhone(r, p) <==> HasPhone(entries, p)
    {
      if HasPhone(entries, p) {
        var i :| 0 <= i < |entries| && entries[i].contact.phone == p;
        assert i != k;
        if i < k {
          assert r[i].contact.phone == p;
        } else {
          assert r[i - 1].contact.phone == p;
        }
      }
      if HasPhone(r, p) {
        var i :| 0 <= i < |r| && r[i].contact.phone == p;
        if i < k {
          assert entries[i].contact.phone == p;
        } else {
          assert entries[i + 1].contact.phone == p;
        }
      }
    }
    forall i | 0 <= i < |r|
      ensures r[i].contact.phone != phone
    {
      if k <= i {
        assert r[i] == entries[i + 1];
      }
    }
    forall i, j | 0 <= i < j < |r|
      ensures r[i].contact.phone != r[j].contact.phone
    {
      var i', j' := if i < k then i else i + 1, if j < k then j else j + 1;
      assert r[i] == entries[i'] && r[j] == entries[j'];
    }
  }

  /** Renaming keeps the phone numbers and the links of every entry, so it
      keeps the list well-formed and every search by phone number finds the
      same index as before. */
  lemma RenameKeepsPhones(entries: seq<Entry>, k: nat, name: Option<string>)
    requires k < |entries|
    ensures var r := RenameAt(entries, k, name);
      (forall j :: 0 <= j < |r| ==> r[j].contact.phone == entries[j].contact.phone && r[j].postLink == entries[j].postLink) &&
      (WellFormed(entries) ==> WellFormed(r)) &&
      forall p :: IndexOfPhone(r, p) == IndexOfPhone(entries, p)
  {
    var r := RenameAt(entries, k, name);
    assert forall j :: 0 <= j < |r| ==> r[j].contact.phone == entries[j].contact.phone;
  }
}
