/**
 * JSON objects as the catalog service returns them and the mirror files hold
 * them. Only string-valued fields are modelled; a field that is absent, that
 * is `undefined` or that holds JSON `null` reads as `None`.
 */
module Records {

  datatype Option<+T> = None | Some(value: T)

  /** One resource record: a JSON object from field name to string value. */
  datatype Record = Record(fields: map<string, string>)

  /** `r.name` */
  function Get(r: Record, name: string): Option<string>
  {
    if name in r.fields then Some(r.fields[name]) else None
  }

  /** JavaScript truthiness of a string-valued field: present and non-empty. */
  predicate Truthy(v: Option<string>)
  {
    v.Some? && v.value != ""
  }

  /** `v || ''` */
  function OrEmpty(v: Option<string>): string
  {
    if Truthy(v) then v.value else ""
  }

  /** `${v}` inside a template literal: an absent value prints as `undefined`. */
  function Interpolate(v: Option<string>): string
  {
    match v
    case Some(s) => s
    case None => "undefined"
  }

  /** `delete r.name` */
  function Delete(r: Record, name: string): (d: Record)
    ensures Get(d, name) == None
    ensures forall n :: n != name ==> Get(d, n) == Get(r, n)
  {
    Record(r.fields - {name})
  }

  /**
   * `if (!(r.name)) { r.name = v; }`: the parent code is filled in only where
   * the field is missing or empty. Assigning `undefined` leaves the field
   * without a value, which `JSON.stringify` then omits.
   */
  function Inject(r: Record, name: string, v: Option<string>): Record
  {
    if Truthy(Get(r, name)) then r
    else match v
      case Some(s) => Record(r.fields[name := s])
      case None => Record(r.fields - {name})
  }

  /**
   * A field already set is kept; a missing or empty one takes the parent
   * code; every other field is left alone.
   */
  lemma InjectFields(r: Record, name: string, v: Option<string>)
    ensures Truthy(Get(r, name)) ==> Inject(r, name, v) == r
    ensures !Truthy(Get(r, name)) ==> Get(Inject(r, name, v), name) == v
    ensures forall n :: n != name ==> Get(Inject(r, name, v), n) == Get(r, n)
  {
  }

  /** `Inject` applied to every record of a listing, in order. */
  function InjectAll(rs: seq<Record>, name: string, v: Option<string>): (ds: seq<Record>)
    ensures |ds| == |rs|
  {
    if rs == [] then []
    else InjectAll(rs[..|rs| - 1], name, v) + [Inject(rs[|rs| - 1], name, v)]
  }

  /** The i-th record of the tagged listing is the i-th record tagged. */
  lemma {:induction false} InjectAllAt(rs: seq<Record>, name: string, v: Option<string>, i: int)
    requires 0 <= i < |rs|
    ensures InjectAll(rs, name, v)[i] == Inject(rs[i], name, v)
  {
    if i < |rs| - 1 {
      InjectAllAt(rs[..|rs| - 1], name, v, i);
    }
  }

  /** The i-th record of a listing tagged twice is the i-th record tagged twice. */
  lemma InjectTwiceAt(rs: seq<Record>, n1: string, v1: Option<string>, n2: string, v2: Option<string>, i: int)
    requires 0 <= i < |rs|
    ensures InjectAll(InjectAll(rs, n1, v1), n2, v2)[i] == Inject(Inject(rs[i], n1, v1), n2, v2)
  {
    InjectAllAt(rs, n1, v1, i);
    InjectAllAt(InjectAll(rs, n1, v1), n2, v2, i);
  }
}
