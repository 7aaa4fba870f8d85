/**
 * The uniqueness checks of the registration form (auth_app/forms.py):
 * clean_email and clean_company_name each look the submitted value up in the
 * user table and refuse it when another account already holds it.
 */
module Registration {
  import opened Wrappers
  import opened Users

  datatype RegistrationError = UserAlreadyExists | CompanyNameAlreadyExists

  /** filter(email=email).exists() */
  predicate EmailTaken(users: map<UserId, Account>, email: string)
  {
    exists u :: u in users && users[u].email == email
  }

  /** filter(company_name=name).exists() */
  predicate CompanyTaken(users: map<UserId, Account>, name: string)
  {
    exists u :: u in users && users[u].companyName == name
  }

  /** clean_email: a missing or empty value skips the lookup; a taken one is refused; otherwise it is returned as given. */
  function CleanEmail(users: map<UserId, Account>, email: Option<string>): (r: Result<Option<string>, RegistrationError>)
    ensures r.Err? <==> email.Some? && email.value != "" && EmailTaken(users, email.value)
    ensures r.Err? ==> r.error == UserAlreadyExists
    ensures r.Ok? ==> r.value == email
  {
    if email.Some? && email.value != "" && EmailTaken(users, email.value) then Err(UserAlreadyExists)
    else Ok(email)
  }

  /** clean_company_name: the same rule over the company_name column. */
  function CleanCompanyName(users: map<UserId, Account>, name: Option<string>): (r: Result<Option<string>, RegistrationError>)
    ensures r.Err? <==> name.Some? && name.value != "" && CompanyTaken(users, name.value)
    ensures r.Err? ==> r.error == CompanyNameAlreadyExists
    ensures r.Ok? ==> r.value == name
  {
    if name.Some? && name.value != "" && CompanyTaken(users, name.value) then Err(CompanyNameAlreadyExists)
    else Ok(name)
  }

  /** No two accounts share a non-empty e-mail address. */
  predicate UniqueEmails(users: map<UserId, Account>)
  {
    forall a, b :: a in users && b in users && a != b && users[a].email != "" ==> users[a].email != users[b].email
  }

  /** No two accounts share a non-empty company name. */
  predicate UniqueCompanyNames(users: map<UserId, Account>)
  {
    forall a, b :: a in users && b in users && a != b && users[a].companyName != "" ==>
      users[a].companyName != users[b].companyName
  }

  /** Once an account with a non-empty address is stored, registering that address again is refused. */
  lemma {:induction false} RegisteredEmailIsRefused(users: map<UserId, Account>, id: UserId, account: Account)
    requires account.email != ""
    ensures CleanEmail(users[id := account], Some(account.email)) == Err(UserAlreadyExists)
  {
    assert users[id := account][id].email == account.email;
  }

  /** Once an account with a non-empty company name is stored, registering that name again is refused. */
  lemma {:induction false} RegisteredCompanyIsRefused(users: map<UserId, Account>, id: UserId, account: Account)
    requires account.companyName != ""
    ensures CleanCompanyName(users[id := account], Some(account.companyName)) == Err(CompanyNameAlreadyExists)
  {
    assert users[id := account][id].companyName == account.companyName;
  }

  /**
   * Storing only accounts whose e-mail and company name passed the two checks
   * keeps both columns free of duplicates.
   */
  lemma {:induction false} RegistrationKeepsColumnsUnique(users: map<UserId, Account>, id: UserId, account: Account)
    requires UniqueEmails(users) && UniqueCompanyNames(users)
    requires id !in users
    requires CleanEmail(users, Some(account.email)).Ok?
    requires CleanCompanyName(users, Some(account.companyName)).Ok?
    ensures UniqueEmails(users[id := account]) && UniqueCompanyNames(users[id := account])
  {
    var users' := users[id := account];
    forall a, b | a in users' && b in users' && a != b && users'[a].email != ""
      ensures users'[a].email != users'[b].email
    {
      if a == id {
        assert b in users && users[b].email == users'[b].email;
      } else if b == id {
        assert a in users && users[a].email == users'[a].email;
      }
    }
    forall a, b | a in users' && b in users' && a != b && users'[a].companyName != ""
      ensures users'[a].companyName != users'[b].companyName
    {
      if a == id {
        assert b in users && users[b].companyName == users'[b].companyName;
      } else if b == id {
        assert a in users && users[a].companyName == users'[a].companyName;
      }
    }
  }
}
