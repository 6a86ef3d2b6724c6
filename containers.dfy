/**
 * Containers: the two orders in which the tool runners check a container's exit status and
 * delete it.
 */
module Containers {
  /** What a finished container run leaves: whether to go on, and whether it was deleted. */
  datatype Finish = Finish(proceed: bool, deleted: bool)

  /**
   * The status is checked first and a failed run bails out before the delete, so its
   * container stays behind; a successful run is deleted, and a failed delete is an error.
   */
  function CheckThenDelete(statusCode: int, deleteSucceeds: bool): (r: Finish)
    ensures r.proceed <==> statusCode == 0 && deleteSucceeds
    ensures r.deleted <==> statusCode == 0 && deleteSucceeds
  {
    if statusCode != 0 then Finish(false, false) else Finish(deleteSucceeds, deleteSucceeds)
  }

  /** The container is deleted first, then the status is checked. */
  function DeleteThenCheck(statusCode: int, deleteSucceeds: bool): (r: Finish)
    ensures r.proceed <==> statusCode == 0 && deleteSucceeds
    ensures r.deleted <==> deleteSucceeds
  {
    if !deleteSucceeds then Finish(false, false) else Finish(statusCode == 0, true)
  }

  /**
   * Both orders accept exactly the same runs; they differ only for a failed run whose
   * delete would succeed, which only the delete-first order cleans up.
   */
  lemma OrdersAgree(statusCode: int, deleteSucceeds: bool)
    ensures CheckThenDelete(statusCode, deleteSucceeds).proceed == DeleteThenCheck(statusCode, deleteSucceeds).proceed
    ensures (CheckThenDelete(statusCode, deleteSucceeds).deleted != DeleteThenCheck(statusCode, deleteSucceeds).deleted)
              <==> statusCode != 0 && deleteSucceeds
  {
  }
}
