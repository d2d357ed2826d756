/** Result codes, NULL and the page limit of acta_db */
module Db {
  datatype Rc = OK | NOT_FOUND | SQL | INVALID | DUPLICATE | FK

  datatype Option<+T> = None | Some(value: T)

  const MAX_PAGE := 10000

  // db_clamp_limit
  function ClampLimit(limit: int): (l: nat)
    ensures 1 <= l <= MAX_PAGE
    ensures 1 <= limit <= 10000 ==> l == limit
    ensures !(1 <= limit <= 10000) ==> l == 10000
  {
    if limit <= 0 || limit > MAX_PAGE then MAX_PAGE else limit
  }
}
