/** Entities of the ACL relation cache and the collaborators it consults.
    Collaborators whose logic lies outside this model (the ACL repository, the
    relation configuration service, the Zanzibar evaluator and the one-argument
    high-cardinality cache) are total functions held by an `Env` value. */
module Domain {

  datatype Option<+T> = None | Some(value: T)

  /** A relation tuple as the repository returns it. Namespace and object are
      always present (the pair built from them admits no null). Stored tuples
      always carry a relation; it is an `Option` only so that the closure
      walk's null guard can be reached. */
  datatype Acl = Acl(
    id: string,
    namespace: string,
    obj: string,
    relation: Option<string>,
    tag: string)                  // Acl.getTag(); its format is not part of this model

  /** A (namespace, object) pair, the element type of the closure. */
  datatype NsObject = NsObject(namespace: string, obj: string)

  /** The per-user cache record that userRelationRepository stores. */
  datatype UserRelationEntity = UserRelationEntity(user: string, relations: set<string>, maxAclUpdated: int)

  /** The two switches of UserRelationsConfig that the builder reads. */
  datatype UserRelationsConfig = UserRelationsConfig(enabled: bool, updateOnAclChange: bool)

  /** A request cache: user -> tags of the tuples the user holds directly. */
  type HighCardinality = map<string, set<string>>

  /** The collaborators, one field per method the core calls. */
  datatype Env = Env(
    findMaxAclUpdatedByPrincipal: string -> int,
    findAllByPrincipal: string -> set<Acl>,
    findAllForCache: (string, string, string) -> set<Acl>,
    nestedRelations: (string, string, string) -> set<string>,
    getRelations: (string, string, string, HighCardinality) -> set<string>,
    prepareHighCardinalityCache: string -> HighCardinality)

  function Get<K, V>(m: map<K, V>, k: K): (r: Option<V>)
    ensures r.Some? <==> k in m
    ensures r.Some? ==> r.value == m[k]
  {
    if k in m then Some(m[k]) else None
  }

  /** Character.isWhitespace: the ASCII controls TAB..CR and FS..US, the space,
      and the Unicode space separators other than the non-breaking ones. */
  function IsWhitespace(c: char): (r: bool)
    ensures c == '\U{00A0}' || c == '\U{2007}' || c == '\U{202F}' ==> !r
    ensures c == ' ' || c == '\t' || c == '\n' || c == '\r' ==> r
    ensures c == '*' ==> !r
  {
    || c == ' '
    || ('\t' <= c <= '\r')
    || ('\U{1C}' <= c <= '\U{1F}')
    || c == '\U{1680}'
    || ('\U{2000}' <= c <= '\U{2006}')
    || ('\U{2008}' <= c <= '\U{200A}')
    || c == '\U{2028}' || c == '\U{2029}' || c == '\U{205F}' || c == '\U{3000}'
  }

  /** StringUtils.isBlank on a non-null string: empty or whitespace only. It is
      false as soon as one character is not whitespace. */
  function IsBlank(s: string): (r: bool)
    ensures s == "" ==> r
    ensures !r <==> exists i | 0 <= i < |s| :: !IsWhitespace(s[i])
    ensures r && s != "" ==> IsBlank(s[1..])
  {
    forall i | 0 <= i < |s| :: IsWhitespace(s[i])
  }
}
