/** src/user/user.repository.ts: the user repository of src/user/user.service.ts, with its
    two existence lookups. The lookups compare the stored value with the argument exactly;
    the paging and id-checked operations its service calls are those of the base
    repository of src/common/repository.ts. */
module UserUserRepository {
  import opened Outcomes
  import opened Store
  import opened Users
  import CommonRepository

  class UserRepository {
    const repository: CommonRepository.Repository<User>

    ghost predicate Valid()
      reads this, repository, repository.collection
    {
      repository.Valid()
    }

    constructor (repository: CommonRepository.Repository<User>)
      ensures this.repository == repository
    {
      this.repository := repository;
    }

    /** `isUsernameExists(username)`: some stored user has exactly this username. */
    method IsUsernameExists(username: string) returns (b: bool)
      ensures b <==> UsernameExists(repository.collection.docs, username)
    {
      var users := repository.collection.Query(UsernameIs(username), 0, 0);
      b := |users.value| > 0;
      FirstMatchIsFirstSelected(repository.collection.docs, UsernameIs(username));
    }

    /** `isEmailExists(email)`: some stored user has exactly this email. */
    method IsEmailExists(email: string) returns (b: bool)
      ensures b <==> EmailExists(repository.collection.docs, email)
    {
      var users := repository.collection.Query(EmailIs(email), 0, 0);
      b := |users.value| > 0;
      FirstMatchIsFirstSelected(repository.collection.docs, EmailIs(email));
    }
  }

  /** The lookups do not normalise: a username differing only in case is another
      username. */
  lemma {:induction false} ExistsIsCaseSensitive()
    ensures var docs := [Entry("1", NewUser("name", "n@x.io", "h"))];
      UsernameExists(docs, "name") && !UsernameExists(docs, "Name")
  {
    var docs := [Entry("1", NewUser("name", "n@x.io", "h"))];
    assert docs[0].doc.username == "name";
    assert "Name" != "name" by { assert "Name"[0] != "name"[0]; }
  }
}
