/**
 * BackUserServiceImpl: registration of a back-office user with a unique
 * username and a tagged password, and lookup by username. The MyBatis mapper
 * behind it is an in-memory table keyed by username.
 */
module UserService {
  import opened Wrappers
  import opened EncoderRegistry
  import opened PasswordFormat

  /** The profile fields of a BackUser other than username and password; the
      service never looks at them. */
  type Profile = map<string, string>

  /** One row of the user table: what the mapper stores and returns. */
  datatype UserRow = UserRow(username: string, password: string, profile: Profile)

  /** The entity handed to `insert`; `insert` overwrites its password in place. */
  class BackUser {
    var username: string
    var password: string
    var profile: Profile

    constructor (username: string, password: string, profile: Profile)
      ensures this.username == username && this.password == password && this.profile == profile
    {
      this.username := username;
      this.password := password;
      this.profile := profile;
    }

    /** The row the mapper writes for this entity. */
    function Snapshot(): UserRow
      reads this
    {
      UserRow(username, password, profile)
    }
  }

  /** Every row is filed under its own username. */
  ghost predicate Keyed(rows: map<string, UserRow>) {
    forall u :: u in rows ==> rows[u].username == u
  }

  /** `findByUsername` on a table: the row filed under `username`, or absent. */
  function Lookup(rows: map<string, UserRow>, username: string): (r: Option<UserRow>)
    ensures r.Some? <==> username in rows
    ensures Keyed(rows) && r.Some? ==> r.value.username == username
  {
    if username in rows then Some(rows[username]) else None
  }

  /** BackUserMapper: the user table, one row per username. */
  class BackUserMapper {
    var rows: map<string, UserRow>

    ghost predicate Valid()
      reads this
    {
      Keyed(rows)
    }

    constructor ()
      ensures Valid() && rows == map[]
    {
      rows := map[];
    }

    method FindByUsername(username: string) returns (r: Option<UserRow>)
      requires Valid()
      ensures r == Lookup(rows, username)
      ensures r.Some? ==> r.value == rows[username] && r.value.username == username
    {
      r := Lookup(rows, username);
    }

    /** Adds a row. A table keyed by username cannot hold a second row for a
        name it already has, so the name must be new. */
    method Insert(row: UserRow)
      requires Valid() && row.username !in rows
      modifies this
      ensures Valid()
      ensures rows == old(rows)[row.username := row]
    {
      rows := rows[row.username := row];
    }
  }

  /** The encoders' `encode`, left uninterpreted. */
  type Hash = (Encoder, string) -> string

  /** The RuntimeException thrown for a username that is taken. */
  datatype RegistrationError = DuplicateUsername

  datatype Outcome = Pass | Fail(error: RegistrationError)

  /** What a registration attempt yields: how it ended, the table afterwards and
      the entity afterwards. */
  datatype Registration = Registration(outcome: Outcome, rows: map<string, UserRow>, user: UserRow)

  /** The effect of `insert(user)` on the table `rows` when the random draw gives `code`. */
  function Register(cat: Catalogue, hash: Hash, rows: map<string, UserRow>, user: UserRow, code: int): (r: Registration)
    requires CatalogueValid(cat) && 0 <= code < CodeCount
    ensures r.outcome.Fail? <==> user.username in rows
    ensures r.outcome.Fail? ==> r.outcome.error == DuplicateUsername && r.rows == rows && r.user == user
    ensures r.outcome.Pass? ==> r.rows.Keys == rows.Keys + {user.username} && |r.rows| == |rows| + 1
    ensures r.outcome.Pass? ==> r.rows[user.username] == r.user
    ensures r.outcome.Pass? ==> forall u :: u in rows ==> r.rows[u] == rows[u]
    ensures r.outcome.Pass? ==> r.user.username == user.username && r.user.profile == user.profile
    ensures r.outcome.Pass? ==>
      var name := cat.encoderType[code];
      name in Names && r.user.password == TaggedPassword(name, hash(cat.encoderMap[name], user.password))
  {
    if user.username in rows then
      Registration(Fail(DuplicateUsername), rows, user)
    else
      DrawResolves(cat, code);
      var name := cat.encoderType[code];
      var stored := user.(password := TaggedPassword(name, hash(cat.encoderMap[name], user.password)));
      Registration(Pass, rows[user.username := stored], stored)
  }

  /** A successful registration leaves every row filed under its own username. */
  lemma RegisterKeepsKeyed(cat: Catalogue, hash: Hash, rows: map<string, UserRow>, user: UserRow, code: int)
    requires CatalogueValid(cat) && 0 <= code < CodeCount && Keyed(rows)
    ensures Keyed(Register(cat, hash, rows, user, code).rows)
  {
  }

  /** After a successful registration the lookup of the new name finds the stored
      row, with the tagged password and not the one handed in, and every other
      lookup is as before. */
  lemma LookupAfterRegister(cat: Catalogue, hash: Hash, rows: map<string, UserRow>, user: UserRow, code: int, other: string)
    requires CatalogueValid(cat) && 0 <= code < CodeCount
    requires Register(cat, hash, rows, user, code).outcome.Pass?
    ensures Lookup(Register(cat, hash, rows, user, code).rows, user.username) == Some(Register(cat, hash, rows, user, code).user)
    ensures other != user.username ==> Lookup(Register(cat, hash, rows, user, code).rows, other) == Lookup(rows, other)
  {
  }

  /** The stored password of a successful registration carries a tag that a
      verifier can read back: the tag is a registered name, it selects the very
      encoder that produced the rest, and encoding the original password with
      that encoder again gives the rest. */
  lemma StoredTagSelectsEncoder(cat: Catalogue, hash: Hash, rows: map<string, UserRow>, user: UserRow, code: int)
    requires CatalogueValid(cat) && 0 <= code < CodeCount
    requires Register(cat, hash, rows, user, code).outcome.Pass?
    ensures var t := ParseTag(Register(cat, hash, rows, user, code).user.password);
      && t.Some?
      && t.value.name == cat.encoderType[code]
      && t.value.name in Names
      && t.value.name in cat.encoderMap
      && AlgorithmOf(cat.encoderMap[t.value.name]) == t.value.name
      && t.value.encoded == hash(cat.encoderMap[t.value.name], user.password)
  {
    var name := cat.encoderType[code];
    DrawResolves(cat, code);
    NamesHaveNoClosingBrace(name);
    TagRoundTrip(name, hash(cat.encoderMap[name], user.password));
  }

  /** Two successful registrations whose draws differ store different passwords,
      whatever the passwords handed in: their tags name different algorithms. */
  lemma DistinctDrawsDistinctStored(cat: Catalogue, hash: Hash, rows: map<string, UserRow>,
                                    first: UserRow, code: int, second: UserRow, code': int)
    requires CatalogueValid(cat) && 0 <= code < CodeCount && 0 <= code' < CodeCount
    requires Register(cat, hash, rows, first, code).outcome.Pass?
    requires Register(cat, hash, rows, second, code').outcome.Pass?
    requires code != code'
    ensures Register(cat, hash, rows, first, code).user.password != Register(cat, hash, rows, second, code').user.password
  {
    StoredTagSelectsEncoder(cat, hash, rows, first, code);
    StoredTagSelectsEncoder(cat, hash, rows, second, code');
  }

  /** Registering a name a second time fails, whatever the password and the draw,
      and leaves the table as the first registration left it. */
  lemma SecondRegistrationFails(cat: Catalogue, hash: Hash, rows: map<string, UserRow>,
                                first: UserRow, code: int, second: UserRow, code': int)
    requires CatalogueValid(cat) && 0 <= code < CodeCount && 0 <= code' < CodeCount
    requires first.username == second.username
    ensures var r := Register(cat, hash, rows, first, code);
      var r' := Register(cat, hash, r.rows, second, code');
      r'.outcome == Fail(DuplicateUsername) && r'.rows == r.rows
  {
  }

  /** The service: the encoder catalogue, the encoders' hash and the mapper. */
  class BackUserServiceImpl {
    const catalogue: Catalogue
    const hash: Hash
    const backUserMapper: BackUserMapper

    ghost predicate Valid()
      reads this, backUserMapper
    {
      CatalogueValid(catalogue) && backUserMapper.Valid()
    }

    /** Wiring of the mapper; the catalogue is built by the static initializer. */
    constructor (mapper: BackUserMapper, hash: Hash)
      requires mapper.Valid()
      ensures Valid()
      ensures catalogue.encoderType == map[0 := "noop", 1 := "bcrypt", 2 := "pbkdf2", 3 := "scrypt", 4 := "sha256"]
      ensures backUserMapper == mapper && this.hash == hash
    {
      var cat := InitCatalogue();
      catalogue := cat;
      this.hash := hash;
      backUserMapper := mapper;
    }

    /** `exist`: whether the mapper finds a row for `username`. */
    method Exist(username: string) returns (b: bool)
      requires Valid()
      ensures b <==> username in backUserMapper.rows
    {
      var backUser := backUserMapper.FindByUsername(username);
      b := backUser.Some?;
    }

    /** `insert`: refuses a taken username without touching anything; otherwise
        overwrites the entity's password with the tagged hash under the encoder
        the draw `code` selects, and writes the entity to the table once. */
    method Insert(backUser: BackUser, code: int) returns (outcome: Outcome)
      requires Valid() && 0 <= code < CodeCount
      modifies backUserMapper, backUser
      ensures Valid()
      ensures var r := Register(catalogue, hash, old(backUserMapper.rows), old(backUser.Snapshot()), code);
        outcome == r.outcome && backUserMapper.rows == r.rows && backUser.Snapshot() == r.user
    {
      var userName := backUser.username;
      var taken := Exist(userName);
      if taken {
        return Fail(DuplicateUsername);
      }
      DrawResolves(catalogue, code);
      var encoderType := catalogue.encoderType[code];
      var passwordEncoder := catalogue.encoderMap[encoderType];
      backUser.password := TaggedPassword(encoderType, hash(passwordEncoder, backUser.password));
      backUserMapper.Insert(backUser.Snapshot());
      outcome := Pass;
    }

    /** `getByUsername`: the mapper's answer, untransformed. */
    method GetByUsername(username: string) returns (r: Option<UserRow>)
      requires Valid()
      ensures r == Lookup(backUserMapper.rows, username)
      ensures r.Some? ==> r.value.username == username
    {
      r := backUserMapper.FindByUsername(username);
    }
  }
}
