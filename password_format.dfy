/**
 * PASSWORD_FORMAT, "{%s}%s": the stored password is the algorithm name in
 * braces followed by the encoder's output. ParseTag is the reading a verifier
 * does of that string: the name is everything between the leading '{' and the
 * first '}', the encoded value is the rest.
 */
module PasswordFormat {
  import opened Wrappers

  /** `String.format(PASSWORD_FORMAT, name, encoded)`. */
  function TaggedPassword(name: string, encoded: string): (stored: string)
    ensures |stored| == |name| + |encoded| + 2
    ensures stored[0] == '{' && stored[|name| + 1] == '}'
    ensures stored[1..|name| + 1] == name && stored[|name| + 2..] == encoded
  {
    "{" + name + "}" + encoded
  }

  /** The position of the first occurrence of `c` in `s`, if any. */
  function IndexOf(s: string, c: char): (r: Option<nat>)
    ensures r.None? <==> c !in s
    ensures r.Some? ==> r.value < |s| && s[r.value] == c
    ensures r.Some? ==> forall j :: 0 <= j < r.value ==> s[j] != c
  {
    if |s| == 0 then None
    else if s[0] == c then Some(0)
    else match IndexOf(s[1..], c)
      case None => None
      case Some(i) => Some(i + 1)
  }

  /** A stored password split into its tag and its encoded value. */
  datatype Tag = Tag(name: string, encoded: string)

  /** Reads the leading `{name}` tag. A stored value that does not begin with '{'
      or has no '}' carries no tag. What comes back formats to the input again. */
  function ParseTag(stored: string): (r: Option<Tag>)
    ensures r.Some? ==> '}' !in r.value.name
    ensures r.Some? ==> TaggedPassword(r.value.name, r.value.encoded) == stored
    ensures r.None? <==> (|stored| == 0 || stored[0] != '{' || '}' !in stored[1..])
  {
    if |stored| == 0 || stored[0] != '{' then None
    else match IndexOf(stored[1..], '}')
      case None => None
      case Some(i) =>
        assert stored == "{" + stored[1..i + 1] + "}" + stored[i + 2..];
        Some(Tag(stored[1..i + 1], stored[i + 2..]))
  }

  /** Round trip: a name without '}' is recovered, with the encoded value, from
      the password it tags, whatever the encoded value contains. */
  lemma TagRoundTrip(name: string, encoded: string)
    requires '}' !in name
    ensures ParseTag(TaggedPassword(name, encoded)) == Some(Tag(name, encoded))
  {
  }

  /** A name that contains '}' is not recovered: the tag ends at its first '}'. */
  lemma BraceInNameIsCut(name: string, encoded: string)
    requires '}' in name
    ensures ParseTag(TaggedPassword(name, encoded)).Some?
    ensures ParseTag(TaggedPassword(name, encoded)).value.name != name
  {
  }
}
