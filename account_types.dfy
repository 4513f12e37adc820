/**
 The account record and its parts: the tag, the account kind with its fixed
 string serialisation, and the account itself (types/account.ts).
 */
module AccountTypes {
  import opened Wrappers

  /** The two kinds of account. The set of variants is closed. */
  datatype AccountType = LDAP | LOCAL

  /** A free-text label; an account may carry the same label more than once. */
  datatype Tag = Tag(text: string)

  /**
   An account as the store keeps it. `tags` is ordered and may repeat;
   `login` and `password` are nullable strings.
   */
  datatype Account = Account(
    id: string,
    tags: seq<Tag>,
    accountType: AccountType,
    login: Option<string>,
    password: Option<string>)

  /**
   The wire value of each variant. The casing differs on purpose, and each
   wire value belongs to exactly one variant.
   */
  function Serialize(t: AccountType): (s: string)
    ensures t == LDAP <==> s == "LDAP"
    ensures t == LOCAL <==> s == "local"
  {
    match t
    case LDAP => "LDAP"
    case LOCAL => "local"
  }

  /** Reads a wire value back; any string that is not one of the two literals is rejected. */
  function Parse(s: string): (r: Option<AccountType>)
    ensures r.Some? <==> s == Serialize(LDAP) || s == Serialize(LOCAL)
    ensures r.Some? ==> Serialize(r.value) == s
  {
    if s == "LDAP" then Some(LDAP)
    else if s == "local" then Some(LOCAL)
    else None
  }

  /** Parsing a serialised variant gives the variant back. */
  lemma ParseSerialize(t: AccountType)
    ensures Parse(Serialize(t)) == Some(t)
  {
  }

  /** Whatever parses, serialises back to the same text. */
  lemma SerializeParse(s: string, t: AccountType)
    requires Parse(s) == Some(t)
    ensures Serialize(t) == s
  {
  }

  /** Distinct variants never share a wire value. */
  lemma SerializeInjective(t: AccountType, u: AccountType)
    ensures Serialize(t) == Serialize(u) <==> t == u
  {
  }

  /** The literals are case-sensitive: the upper-case "LOCAL" and the lower-case "ldap" are not variants. */
  lemma CaseSensitive()
    ensures Serialize(LDAP) == "LDAP" && Serialize(LOCAL) == "local"
    ensures Parse("LOCAL") == None && Parse("ldap") == None
  {
  }
}
