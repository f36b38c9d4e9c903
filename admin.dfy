/**
 * The admin allow-list (src/utils/admin.js). The `ADMIN_IDS` environment
 * variable is an input; the empty text stands for an unset variable.
 */
module Admin {
  import opened Text

  /** `id => id.trim()` over the comma-separated entries. */
  function TrimAll(entries: seq<string>): (r: seq<string>)
    ensures |r| == |entries| && forall k :: 0 <= k < |r| ==> r[k] == Trim(entries[k])
  {
    if entries == [] then [] else [Trim(entries[0])] + TrimAll(entries[1..])
  }

  /** The allow-list as the code reads it: the variable split at commas, each entry trimmed. */
  function AdminList(adminIds: string): seq<string>
  {
    TrimAll(Split(adminIds, ','))
  }

  /**
   * `isAdmin`: a non-empty user id that equals one of the trimmed entries of a
   * non-empty `ADMIN_IDS`. The id itself is compared untrimmed.
   */
  function IsAdmin(userId: string, adminIds: string): (ok: bool)
    ensures userId == [] ==> !ok
    ensures adminIds == [] ==> !ok
    ensures ok <==> userId != [] && adminIds != []
                    && exists k :: 0 <= k < |Split(adminIds, ',')| && Trim(Split(adminIds, ',')[k]) == userId
  {
    if userId == [] then false
    else if adminIds == [] then false
    else userId in AdminList(adminIds)
  }

  /** Every admin id is a trimmed text: an id with white space at either end is never an admin. */
  lemma AdminIdsAreTrimmed(userId: string, adminIds: string)
    requires IsAdmin(userId, adminIds)
    ensures IsTrimmed(userId) && userId != []
  {
    var k :| 0 <= k < |Split(adminIds, ',')| && Trim(Split(adminIds, ',')[k]) == userId;
  }

  /**
   * A list written as comma-separated entries, any of them padded with white space:
   * the id an entry holds once trimmed is an admin, whatever the padding.
   */
  lemma ListedIsAdmin(entries: seq<string>, k: nat, userId: string)
    requires |entries| >= 1 && k < |entries|
    requires forall j :: 0 <= j < |entries| ==> ',' !in entries[j]
    requires userId != [] && Trim(entries[k]) == userId
    ensures IsAdmin(userId, Join(entries, ','))
  {
    SplitJoin(entries, ',');
  }
}
