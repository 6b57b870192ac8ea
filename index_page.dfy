/** The state of the `Index` page and the three handlers that change it:
    the scrape run, blocking a number and editing a contact. Every request the
    handlers make is replaced by its answer, passed in as a parameter. */
module IndexPage {
  import opened Entities
  import opened Scrape
  import opened ResultEdits

  /** How a block request ended. */
  datatype BlockResult =
    | Blocked          // success response; the entry was removed
    | Refused          // failure response; the list is unchanged
    | IndexOutOfRange  // success response, but no entry carries the number:
                       // `RemoveAt(-1)` throws and the list is unchanged

  class Index {
    /** The source page whose posts are scraped. It is carried only as page
        state: `Process` receives the answers for it as parameters. */
    var url: string
    /** The result list (`PostLinks`). */
    var postLinks: seq<Entry>
    /** The progress bar, as the number of 1/n steps taken (`Progress`). */
    var progressSteps: nat

    /** The result list keeps unique, non-empty phone numbers. */
    ghost predicate Valid()
      reads this
    {
      WellFormed(postLinks)
    }

    /** The page as first rendered. The page has no constructor of its own;
        `Url` is bound from the page's input field and may change between runs. */
    constructor (url: string)
      ensures Valid()
      ensures this.url == url && postLinks == [] && progressSteps == 0
    {
      this.url := url;
      postLinks := [];
      progressSteps := 0;
    }

    /** The scrape run. `directory` is the contact list fetched up front,
        `candidates` the post links of `url`, each with the outcome of its
        requests. `failed` tells whether the loop stopped on an error other
        than 404 (the error toast). */
    method Process(directory: Option<seq<Contact>>, candidates: seq<Candidate>) returns (failed: bool)
      modifies this
      ensures postLinks == Run(directory, candidates).entries
      ensures progressSteps == Run(directory, candidates).steps
      ensures failed == Run(directory, candidates).aborted
      ensures url == old(url)
      ensures Valid()
    {
      postLinks := [];
      progressSteps := 0;
      failed := false;
      var i := 0;
      while i < |candidates|
        invariant 0 <= i <= |candidates|
        invariant !failed && url == old(url)
        invariant Run(directory, candidates[..i]) == RunState(postLinks, progressSteps, false)
      {
        var c := candidates[i];
        assert candidates[..i + 1][..i] == candidates[..i];
        match c.outcome {
          case NotFound =>
            progressSteps := progressSteps + 1;
          case OtherFailure =>
            progressSteps := 0;
            failed := true;
            RunStopsAfterAbort(directory, candidates, i + 1);
            break;
          case Fetched(phone, allowed) =>
            if phone != "" && allowed && !HasPhone(postLinks, phone) {
              postLinks := postLinks + [NewEntry(directory, c.link, phone)];
            }
            progressSteps := progressSteps + 1;
        }
        i := i + 1;
      }
      if !failed {
        assert candidates[..i] == candidates;
      }
      RunWellFormed(directory, candidates);
    }

    /** Blocking `phone`; `success` is the status of the blacklist request. */
    method BlockPhoneNumber(phone: string, success: bool) returns (result: BlockResult)
      modifies this
      ensures result == if !success then Refused
                        else if HasPhone(old(postLinks), phone) then Blocked
                        else IndexOutOfRange
      ensures postLinks == if result.Blocked? then RemoveAt(old(postLinks), IndexOfPhone(old(postLinks), phone))
                           else old(postLinks)
      ensures old(Valid()) ==> Valid()
      ensures old(Valid()) && result.Blocked? ==> !HasPhone(postLinks, phone)
      ensures url == old(url) && progressSteps == old(progressSteps)
    {
      if success {
        var k := IndexOfPhone(postLinks, phone);
        if k < 0 {
          result := IndexOutOfRange;
        } else {
          if Valid() {
            BlockRemovesOnlyThatPhone(postLinks, phone);
          }
          postLinks := RemoveAt(postLinks, k);
          result := Blocked;
        }
      } else {
        result := Refused;
      }
    }

    /** Editing the contact of `phone`; `dialogResult` is what the contact
        dialog returned (None when it was cancelled). `renamed` tells whether
        an entry of the list was updated (the success toast). */
    method EditContact(phone: string, dialogResult: Option<Contact>) returns (renamed: bool)
      modifies this
      ensures renamed <==> dialogResult.Some? && HasPhone(old(postLinks), phone)
      ensures postLinks == if renamed then RenameAt(old(postLinks), IndexOfPhone(old(postLinks), phone), dialogResult.value.name)
                           else old(postLinks)
      ensures |postLinks| == |old(postLinks)|
      ensures forall j :: 0 <= j < |postLinks| ==>
        postLinks[j].contact.phone == old(postLinks)[j].contact.phone && postLinks[j].postLink == old(postLinks)[j].postLink
      ensures old(Valid()) ==> Valid()
      ensures url == old(url) && progressSteps == old(progressSteps)
    {
      renamed := false;
      if dialogResult.None? {
        return;
      }
      var k := IndexOfPhone(postLinks, phone);
      if 0 <= k {
        RenameKeepsPhones(postLinks, k, dialogResult.value.name);
        postLinks := RenameAt(postLinks, k, dialogResult.value.name);
        renamed := true;
      }
    }
  }
}
