/**
 * The entities of `App\Domain\Models`: `Client` and `User`. Both are
 * immutable records; their getters are the datatype fields. Timestamps
 * are kept as the `Y-m-d H:i:s` strings they are stored and printed as.
 */
module DomainModels {
  import opened Wrappers
  import opened PhpArrays

  /**
   * `Client`. `id` is null until the client is first saved; `clientType`
   * is the source's `type` ('PF' or 'PJ'); `document` is a CPF or CNPJ.
   */
  datatype Client = Client(
    id: Option<int>,
    name: string,
    phone: string,
    clientType: string,
    document: string,
    createdAt: Option<string>,
    updatedAt: Option<string>,
    deletedAt: Option<string>)

  /** `new Client($id, $name, $phone, $type, $document)`: the three timestamps default to null. */
  function NewClient(id: Option<int>, name: string, phone: string, clientType: string, document: string): (c: Client)
    ensures c.createdAt.None? && c.updatedAt.None? && c.deletedAt.None?
  {
    Client(id, name, phone, clientType, document, None, None, None)
  }

  /** A value of the array `Client::toArray` builds. */
  datatype Field = Null | IntField(i: int) | TextField(s: string)

  /** The keys of `Client::toArray`, in order. */
  const CLIENT_KEYS: seq<string> :=
    ["id", "name", "phone", "type", "document", "created_at", "updated_at", "deleted_at"]

  /** A nullable string field: null stays null. */
  function NullableText(o: Option<string>): (f: Field)
    ensures f.Null? <==> o.None?
  {
    if o.Some? then TextField(o.value) else Null
  }

  /** `toArray()`. */
  function ToArray(c: Client): (a: OMap<string, Field>)
    ensures Keys(a) == CLIENT_KEYS && IsMap(a)
    ensures a[1].1 == TextField(c.name) && a[2].1 == TextField(c.phone)
    ensures a[3].1 == TextField(c.clientType) && a[4].1 == TextField(c.document)
    ensures a[0].1.Null? <==> c.id.None?
    ensures a[5].1.Null? <==> c.createdAt.None?
    ensures a[6].1.Null? <==> c.updatedAt.None?
    ensures a[7].1.Null? <==> c.deletedAt.None?
  {
    var a := [("id", if c.id.Some? then IntField(c.id.value) else Null),
              ("name", TextField(c.name)),
              ("phone", TextField(c.phone)),
              ("type", TextField(c.clientType)),
              ("document", TextField(c.document)),
              ("created_at", NullableText(c.createdAt)),
              ("updated_at", NullableText(c.updatedAt)),
              ("deleted_at", NullableText(c.deletedAt))];
    assert Keys(a) == CLIENT_KEYS;
    a
  }

  /** Reads a nullable string field back. */
  function TextOrNull(f: Field): Option<Option<string>> {
    match f
    case Null => Some(None)
    case TextField(s) => Some(Some(s))
    case IntField(_) => None
  }

  /** Reads a client back from its array form, or None when the array does not have that shape. */
  function FromArray(a: OMap<string, Field>): Option<Client> {
    if Keys(a) != CLIENT_KEYS then None
    else
      var id := match a[0].1 case Null => Some(None) case IntField(i) => Some(Some(i)) case TextField(_) => None;
      var created, updated, deleted := TextOrNull(a[5].1), TextOrNull(a[6].1), TextOrNull(a[7].1);
      if id.Some? && a[1].1.TextField? && a[2].1.TextField? && a[3].1.TextField? && a[4].1.TextField?
         && created.Some? && updated.Some? && deleted.Some?
      then Some(Client(id.value, a[1].1.s, a[2].1.s, a[3].1.s, a[4].1.s, created.value, updated.value, deleted.value))
      else None
  }

  /** `toArray` loses nothing: the client can be read back from it. */
  lemma ToArrayRoundTrip(c: Client)
    ensures FromArray(ToArray(c)) == Some(c)
  {
  }

  /** `User`: the account a login is checked against. */
  datatype User = User(id: int, email: string, passwordHash: string, createdAt: Option<string>)
}
