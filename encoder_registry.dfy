/**
 * The encoder catalogue of BackUserServiceImpl: the table ENCODER_TYPE from the
 * codes 0..4 to algorithm names, and the table ENCODER_MAP from each name to a
 * password encoder. Both are filled once, by a static initializer.
 */
module EncoderRegistry {

  /** The five password encoders the catalogue holds, one per Spring Security class. */
  datatype Encoder =
    | NoOp       // NoOpPasswordEncoder
    | BCrypt     // BCryptPasswordEncoder
    | Pbkdf2     // Pbkdf2PasswordEncoder
    | SCrypt     // SCryptPasswordEncoder
    | Standard   // StandardPasswordEncoder (SHA-256)

  /** The algorithm each encoder implements, spelled as the catalogue spells it. */
  function AlgorithmOf(e: Encoder): string {
    match e
    case NoOp => "noop"
    case BCrypt => "bcrypt"
    case Pbkdf2 => "pbkdf2"
    case SCrypt => "scrypt"
    case Standard => "sha256"
  }

  /** The bound of the random draw `nextInt(5)`: codes are 0 <= code < CodeCount. */
  const CodeCount: int := 5

  /** The registered algorithm names. */
  const Names: set<string> := {"noop", "bcrypt", "pbkdf2", "scrypt", "sha256"}

  /** ENCODER_TYPE and ENCODER_MAP together. */
  datatype Catalogue = Catalogue(encoderType: map<int, string>, encoderMap: map<string, Encoder>)

  /** The names ENCODER_TYPE maps some code to. */
  function NamesOf(encoderType: map<int, string>): set<string> {
    set c | c in encoderType :: encoderType[c]
  }

  /** What `insert` relies on: every code the draw can give has a name, distinct
      codes have distinct names, the names are exactly the registered ones, every
      name has an encoder, and that encoder implements the named algorithm. */
  ghost predicate CatalogueValid(cat: Catalogue) {
    && (forall c :: c in cat.encoderType <==> 0 <= c < CodeCount)
    && (forall c, d :: c in cat.encoderType && d in cat.encoderType && c != d ==>
          cat.encoderType[c] != cat.encoderType[d])
    && NamesOf(cat.encoderType) == Names
    && cat.encoderMap.Keys == Names
    && (forall n :: n in cat.encoderMap ==> AlgorithmOf(cat.encoderMap[n]) == n)
  }

  /** No registered name contains the closing brace that ends a password tag. */
  lemma NamesHaveNoClosingBrace(n: string)
    requires n in Names
    ensures '}' !in n
  {
  }

  /** The static initializer: five puts into ENCODER_TYPE, then five into ENCODER_MAP. */
  method InitCatalogue() returns (cat: Catalogue)
    ensures CatalogueValid(cat)
    ensures cat.encoderType == map[0 := "noop", 1 := "bcrypt", 2 := "pbkdf2", 3 := "scrypt", 4 := "sha256"]
  {
    var encoderType: map<int, string> := map[];
    encoderType := encoderType[0 := "noop"];
    encoderType := encoderType[1 := "bcrypt"];
    encoderType := encoderType[2 := "pbkdf2"];
    encoderType := encoderType[3 := "scrypt"];
    encoderType := encoderType[4 := "sha256"];
    var encoderMap: map<string, Encoder> := map[];
    encoderMap := encoderMap["noop" := NoOp];
    encoderMap := encoderMap["bcrypt" := BCrypt];
    encoderMap := encoderMap["pbkdf2" := Pbkdf2];
    encoderMap := encoderMap["scrypt" := SCrypt];
    encoderMap := encoderMap["sha256" := Standard];
    assert encoderType.Keys == {0, 1, 2, 3, 4};
    assert NamesOf(encoderType) == Names by {
      assert encoderType[0] in NamesOf(encoderType) && encoderType[1] in NamesOf(encoderType);
      assert encoderType[2] in NamesOf(encoderType) && encoderType[3] in NamesOf(encoderType);
      assert encoderType[4] in NamesOf(encoderType);
    }
    cat := Catalogue(encoderType, encoderMap);
  }

  /** Whatever code in [0, CodeCount) the draw yields, the lookups of `insert`
      succeed, and the encoder found implements the algorithm the name says. */
  lemma DrawResolves(cat: Catalogue, code: int)
    requires CatalogueValid(cat) && 0 <= code < CodeCount
    ensures code in cat.encoderType
    ensures cat.encoderType[code] in Names
    ensures cat.encoderType[code] in cat.encoderMap
    ensures AlgorithmOf(cat.encoderMap[cat.encoderType[code]]) == cat.encoderType[code]
  {
  }

  /** Every registered name is drawn by exactly one code. */
  lemma EachNameHasOneCode(cat: Catalogue, n: string)
    requires CatalogueValid(cat) && n in Names
    ensures exists c :: 0 <= c < CodeCount && c in cat.encoderType && cat.encoderType[c] == n
    ensures forall c, d ::
              (c in cat.encoderType && d in cat.encoderType &&
               cat.encoderType[c] == n && cat.encoderType[d] == n) ==> c == d
  {
  }
}
