/** What the database accepts, as far as the code asks for more than the migrations define. */
module Schema {

  /** The values of the enumeration `verification_status`, which organizations and users share, and
      whether there is a table `reports` and a column `deleted_at` of users and of castings. */
  datatype Schema = Schema(statuses: set<string>, reports: bool, userDeletedAt: bool, castingDeletedAt: bool)

  /** The schema the migrations define. */
  const SHIPPED := Schema({"none", "pending", "in_review", "verified", "rejected"}, false, false, false)
}
