/** The key scheme of the key-value store (scheduler.js:546-605): role
    records live under "#" + role id, task records under ":" + decimal task
    id; enumeration tells the families apart by the first character. */
module Keys {

  import opened Optional
  import Text

  datatype Key = RoleKey(roleId: string) | TaskKey(taskId: int) | OtherKey(raw: string)

  /** A key of another application must not look like a role or task key. */
  predicate WellFormed(k: Key)
  {
    k.OtherKey? ==> |k.raw| == 0 || (k.raw[0] != '#' && k.raw[0] != ':')
  }

  /** The text of a key in the underlying string-keyed storage. */
  function KeyText(k: Key): string
  {
    match k
    case RoleKey(id) => "#" + id
    case TaskKey(n) => ":" + Text.IntToText(n)
    case OtherKey(raw) => raw
  }

  /** How `dbRoleIds` and `dbTaskIds` read a stored key: a "#" key names the
      role id after the sigil, a ":" key the number after the sigil, anything
      else neither. A ":" key whose rest is not decimal text is not modelled
      (None). */
  function DecodeKey(s: string): Option<Key>
  {
    if |s| > 0 && s[0] == '#' then Some(RoleKey(s[1..]))
    else if |s| > 0 && s[0] == ':' then
      (if Text.IsIntText(s[1..]) then Some(TaskKey(Text.IntTextToInt(s[1..]))) else None)
    else Some(OtherKey(s))
  }

  /** Every well-formed key is read back as itself, so distinct keys have
      distinct texts and the two families never mix. */
  lemma DecodeKeyText(k: Key)
    requires WellFormed(k)
    ensures DecodeKey(KeyText(k)) == Some(k)
  {
    match k
    case RoleKey(id) =>
      assert KeyText(k)[1..] == id;
    case TaskKey(n) =>
      assert KeyText(k)[1..] == Text.IntToText(n);
      Text.IntTextRoundTrip(n);
    case OtherKey(raw) =>
  }

  lemma KeyTextInjective(k1: Key, k2: Key)
    requires WellFormed(k1) && WellFormed(k2) && KeyText(k1) == KeyText(k2)
    ensures k1 == k2
  {
    DecodeKeyText(k1);
    DecodeKeyText(k2);
  }
}
