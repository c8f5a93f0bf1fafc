/** The user administration page: the status filter, the status badge colour,
    the edit form defaults and the page buttons. */
module UsersAdmin {
  import opened Common
  import opened Seqs
  import Paging

  datatype User = User(id: string, username: string, subscriptionTier: Option<string>, accountStatus: Option<string>)

  /** A user's status as the page reads it: a missing or empty status is "Active". */
  function StatusOf(u: User): (s: string)
    ensures s != ""
    ensures u.accountStatus.Some? && u.accountStatus.value != "" ==> s == u.accountStatus.value
  {
    OrDefault(u.accountStatus, "Active")
  }

  /** `filteredUsers`: the chosen status tab, "all" showing everyone. */
  function FilteredUsers(users: seq<User>, filterStatus: string): (r: seq<User>)
    ensures filterStatus == "all" ==> r == users
    ensures filterStatus != "all" ==> IsSubsequence(r, users)
    ensures filterStatus != "all" ==> forall u :: u in r <==> u in users && StatusOf(u) == filterStatus
  {
    if filterStatus == "all" then users
    else Filter(users, (u: User) => StatusOf(u) == filterStatus)
  }

  /** A user without a recorded status is listed under "Active" and under no other tab. */
  lemma MissingStatusIsActive(users: seq<User>, u: User, filterStatus: string)
    requires u in users && u.accountStatus.None?
    ensures u in FilteredUsers(users, "Active")
    ensures filterStatus != "all" && filterStatus != "Active" ==> u !in FilteredUsers(users, filterStatus)
  {
  }

  /** The badge colour of a status. */
  function StatusColor(s: string): (c: string)
    ensures s == "Active" ==> c == "bg-green-500"
    ensures s == "Banned" ==> c == "bg-red-500"
    ensures s != "Active" && s != "Banned" ==> c == "bg-gray-500"
    ensures c == "bg-green-500" <==> s == "Active"
    ensures c == "bg-red-500" <==> s == "Banned"
  {
    if s == "Active" then "bg-green-500"
    else if s == "Banned" then "bg-red-500"
    else "bg-gray-500"
  }

  datatype EditForm = EditForm(subscriptionTier: string, accountStatus: string)

  /** The form `handleEdit` opens with: the user's own tier and status, "Free" and
      "Active" where those are missing. */
  function EditFormFor(u: User): (f: EditForm)
    ensures f.subscriptionTier == (if u.subscriptionTier.Some? && u.subscriptionTier.value != "" then u.subscriptionTier.value else "Free")
    ensures f.accountStatus == StatusOf(u)
  {
    EditForm(OrDefault(u.subscriptionTier, "Free"), OrDefault(u.accountStatus, "Active"))
  }

  /** The page state that the edit dialog and the page buttons change. */
  class UsersPage {
    var users: seq<User>
    var page: int
    var totalPages: int
    var filterStatus: string
    var editingUser: Option<User>
    var editForm: EditForm
    var editOpen: bool

    constructor ()
      ensures users == [] && page == 1 && totalPages == 1 && filterStatus == "all"
      ensures editingUser.None? && editForm == EditForm("Free", "Active") && !editOpen
    {
      users := [];
      page := 1;
      totalPages := 1;
      filterStatus := "all";
      editingUser := None;
      editForm := EditForm("Free", "Active");
      editOpen := false;
    }

    /** Opens the edit dialog for `u` with its current tier and status. */
    method HandleEdit(u: User)
      modifies this
      ensures editingUser == Some(u) && editForm == EditFormFor(u) && editOpen
      ensures users == old(users) && page == old(page) && totalPages == old(totalPages)
      ensures filterStatus == old(filterStatus)
    {
      editingUser := Some(u);
      editForm := EditFormFor(u);
      editOpen := true;
    }

    /** The Previous button. */
    method PrevPage()
      modifies this
      ensures page == Paging.Prev(old(page))
      ensures 1 <= old(page) <= totalPages ==> 1 <= page <= totalPages
      ensures users == old(users) && totalPages == old(totalPages) && filterStatus == old(filterStatus)
      ensures editingUser == old(editingUser) && editForm == old(editForm) && editOpen == old(editOpen)
    {
      if 1 <= page <= totalPages {
        Paging.ButtonsKeepRange(page, totalPages);
      }
      page := Paging.Prev(page);
    }

    /** The Next button. */
    method NextPage()
      modifies this
      ensures page == Paging.Next(old(page), totalPages)
      ensures 1 <= old(page) <= totalPages ==> 1 <= page <= totalPages
      ensures users == old(users) && totalPages == old(totalPages) && filterStatus == old(filterStatus)
      ensures editingUser == old(editingUser) && editForm == old(editForm) && editOpen == old(editOpen)
    {
      if 1 <= page <= totalPages {
        Paging.ButtonsKeepRange(page, totalPages);
      }
      page := Paging.Next(page, totalPages);
    }
  }
}
