# Back-office user registration, modelled in Dafny

This project models `BackUserServiceImpl`, the registration and lookup service of the
back-office user module of the `spring-security-db` application. It has three parts:

- **Encoder catalogue** (`EncoderRegistry`, file `encoder_registry.dfy`). The static
  initializer fills `ENCODER_TYPE`, which maps the codes 0..4 to `noop`, `bcrypt`,
  `pbkdf2`, `scrypt` and `sha256`. It also fills `ENCODER_MAP`, which maps each name to its
  Spring Security encoder. `InitCatalogue` performs the same ten puts in order.
  `CatalogueValid` states what `insert` depends on:
  - every code the draw can yield has a name;
  - no two codes share a name;
  - the names are exactly the five registered ones;
  - every name has an encoder, and that encoder implements the named algorithm.
- **Tagged password** (`PasswordFormat`, file `password_format.dfy`). `PASSWORD_FORMAT`
  is `"{%s}%s"`, modelled as `TaggedPassword(name, encoded)`. Its partner is `ParseTag`,
  which reads the leading `{name}` tag the way a verifier must: the name runs up to the
  first `}`. Two lemmas connect them: format-then-parse (`TagRoundTrip`) and
  parse-then-format (the `ensures` of `ParseTag`).
- **Registration over a user store** (`UserService`, file `user_service.dfy`):
  - `BackUserMapper` is the table, a map from username to row.
  - `BackUser` is the entity whose password `insert` overwrites in place.
  - `BackUserServiceImpl` holds the catalogue, the encoders' hash and the mapper.
  - `Register` is a pure function stating what one `insert` does to the table and to
    the entity. `BackUserServiceImpl.Insert` is proved equal to it, and the lemmas
    beside `Register` state the properties.

Inputs the service does not control are parameters:
- `java.util.Random.nextInt(5)` becomes the argument `code`, with `0 <= code < 5`.
- The encoders' `encode` becomes a function value `hash: (Encoder, string) -> string`,
  fixed when the service is built.

## Model

| member | source | states |
|---|---|---|
| `EncoderRegistry.InitCatalogue` | spring-security-db/src/main/java/com/xc/justforjoy/service/impl/BackUserServiceImpl.java:44-55 | the static initializer yields codes 0..4 mapped to noop, bcrypt, pbkdf2, scrypt, sha256; every code in [0,5) and only those is a key; the table is injective; its range is exactly the five names; `ENCODER_MAP` has exactly those names as keys, each mapped to the encoder of that algorithm |
| `EncoderRegistry.DrawResolves` | spring-security-db/src/main/java/com/xc/justforjoy/service/impl/BackUserServiceImpl.java:82-85 | any code `nextInt(5)` can return is a key of `ENCODER_TYPE`; its name is registered and is a key of `ENCODER_MAP`; the encoder found implements that name's algorithm, so neither lookup in `insert` comes back null |
| `EncoderRegistry.EachNameHasOneCode` | spring-security-db/src/main/java/com/xc/justforjoy/service/impl/BackUserServiceImpl.java:45-49 | every registered name is drawn by some code in [0,5), and by only one |
| `EncoderRegistry.NamesHaveNoClosingBrace` | spring-security-db/src/main/java/com/xc/justforjoy/service/impl/BackUserServiceImpl.java:45-49 | no registered name contains `}`, so a tag built from one can be read back |
| `PasswordFormat.TaggedPassword` | spring-security-db/src/main/java/com/xc/justforjoy/service/impl/BackUserServiceImpl.java:39 | the stored value is `{`, the name, `}`, then the encoded value: its length is the two lengths plus two, and the name and the encoded value sit at fixed positions |
| `PasswordFormat.ParseTag` | spring-security-db/src/main/java/com/xc/justforjoy/service/impl/BackUserServiceImpl.java:39 | the tag is read from the format: it is absent exactly when the value is empty, does not start with `{` or has no later `}`; when present, the name has no `}` and formatting the parts gives back the stored value |
| `PasswordFormat.TagRoundTrip` | spring-security-db/src/main/java/com/xc/justforjoy/service/impl/BackUserServiceImpl.java:39 | for any name without `}` and any encoded value, parsing the formatted password recovers both parts |
| `PasswordFormat.BraceInNameIsCut` | spring-security-db/src/main/java/com/xc/justforjoy/service/impl/BackUserServiceImpl.java:39 | a name that contains `}` is not recovered, so the format needs the registered names to be free of `}` |
| `UserService.Lookup` | spring-security-db/src/main/java/com/xc/justforjoy/service/impl/BackUserServiceImpl.java:100 | `findByUsername` finds a row exactly when the name is in the table, and the row it finds carries that username |
| `UserService.BackUserMapper.FindByUsername` | spring-security-db/src/main/java/com/xc/justforjoy/service/impl/BackUserServiceImpl.java:100 | the mapper's lookup returns the row filed under the name, or absent, and changes nothing |
| `UserService.BackUserMapper.Insert` | spring-security-db/src/main/java/com/xc/justforjoy/service/impl/BackUserServiceImpl.java:88 | the mapper's insert adds the row under its username and changes no other row |
| `UserService.Register` | spring-security-db/src/main/java/com/xc/justforjoy/service/impl/BackUserServiceImpl.java:58-89 | `insert` fails with the duplicate-username error if and only if the name is taken; on failure the table and the entity are as before; on success the table gains exactly one key, the new username, and keeps every old row; the stored row equals the entity afterwards; the entity keeps its username and profile; its password becomes `{name}` plus the hash of the original password, where `name` is a registered name and is the drawn code's name |
| `UserService.RegisterKeepsKeyed` | spring-security-db/src/main/java/com/xc/justforjoy/service/impl/BackUserServiceImpl.java:58-88 | registration keeps every row filed under its own username |
| `UserService.LookupAfterRegister` | spring-security-db/src/main/java/com/xc/justforjoy/service/impl/BackUserServiceImpl.java:87-94 | after a successful registration, the lookup of the new name returns the stored row with the tagged password; a lookup of any other name returns what it returned before |
| `UserService.StoredTagSelectsEncoder` | spring-security-db/src/main/java/com/xc/justforjoy/service/impl/BackUserServiceImpl.java:84-87 | the stored password of a successful registration parses; its tag is the drawn name, which is registered; looking the tag up in `ENCODER_MAP` gives the encoder of that algorithm; encoding the original password with it yields the rest of the stored value |
| `UserService.DistinctDrawsDistinctStored` | spring-security-db/src/main/java/com/xc/justforjoy/service/impl/BackUserServiceImpl.java:83-87 | two successful registrations whose draws differ store different password values, whatever the plaintexts, because the tags name different algorithms |
| `UserService.SecondRegistrationFails` | spring-security-db/src/main/java/com/xc/justforjoy/service/impl/BackUserServiceImpl.java:59-62 | once a name is registered, registering it again fails with the duplicate-username error and writes nothing, whatever the password and the draw |
| `UserService.BackUserServiceImpl.constructor` | spring-security-db/src/main/java/com/xc/justforjoy/service/impl/BackUserServiceImpl.java:35-55 | the service starts with a catalogue that satisfies `CatalogueValid`, whose code table is exactly 0→noop, 1→bcrypt, 2→pbkdf2, 3→scrypt, 4→sha256, and with the mapper it is given |
| `UserService.BackUserServiceImpl.Exist` | spring-security-db/src/main/java/com/xc/justforjoy/service/impl/BackUserServiceImpl.java:99-102 | `exist(u)` is true exactly when the mapper holds a row for `u` |
| `UserService.BackUserServiceImpl.Insert` | spring-security-db/src/main/java/com/xc/justforjoy/service/impl/BackUserServiceImpl.java:57-89 | the outcome, the new table and the entity's new state are exactly those `Register` gives for the old table, the old entity and the drawn code; the table stays keyed by username |
| `UserService.BackUserServiceImpl.GetByUsername` | spring-security-db/src/main/java/com/xc/justforjoy/service/impl/BackUserServiceImpl.java:91-94 | `getByUsername(u)` returns the mapper's lookup untransformed: the row for `u` with its stored password, or absent |

## Left out

- The hashing algorithms (BCrypt, PBKDF2, SCrypt, SHA-256 through `StandardPasswordEncoder`, NoOp) are foreign Spring Security calls. They are one uninterpreted function `hash`. It is deterministic, so per-call salts are not modelled: two registrations that store different values for one password under one algorithm are not represented.
- `java.util.Random` becomes the `code` argument. A uniform choice among the five algorithms is a claim about a distribution and cannot be stated as a contract.
- MyBatis-Plus `ServiceImpl`, the `BackUserMapper` SQL and the schema are replaced by a map from username to row. So `BackUserMapper.Insert` requires the name to be new: such a map cannot hold two rows for one name. The service proves it never calls the insert with a name that is taken.
- Failures of the database insert (a `PersistenceError` from the store) and the rollback of `@Transactional` are not modelled: the in-memory table always accepts a new name.
- Two concurrent registrations of one name can both pass the check before either writes. This is concurrency, which the code leaves to the database.
- Spring wiring (`@Service`, `@Autowired`) and `@Slf4j` logging are framework plumbing.
- The login-time verification path (`DaoAuthenticationProvider`) is not in this file. `ParseTag` and `StoredTagSelectsEncoder` state only what that path needs from the stored format.
- The `BackUser` entity's source is not modelled field by field. Its fields other than username and password are an opaque `Profile` that registration leaves unchanged.
- A `null` username or password is not modelled. The code does not test for an empty username either, so the model does not require one.
- `LookupAfterRegister` states that the stored password is the tagged form. It does not claim that the stored value differs from the plaintext: with an uninterpreted `hash`, a plaintext could in principle equal its own tagged hash.
