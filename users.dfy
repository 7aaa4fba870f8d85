/**
 * The user table the application's views consult. The custom user model
 * itself is not part of this model: only the fields the views read are kept.
 */
module Users {

  /** A user's primary key. */
  type UserId = nat

  /** One row of the user table: the name, company and e-mail fields. */
  datatype Account = Account(firstName: string, lastName: string, companyName: string, email: string)
}
