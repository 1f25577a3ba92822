/** Row ids, and the order siblings stand in: `sort_order`, then `created_at`. */
module SiblingOrder {
  type Id = string

  datatype Rank = Rank(sort: int, createdAt: int)

  predicate NotAfter(a: Rank, b: Rank) {
    a.sort < b.sort || (a.sort == b.sort && a.createdAt <= b.createdAt)
  }
}
