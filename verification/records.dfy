/** The attribute-map helpers of the ORM base class (`CustomBase.to_dict`,
    `CustomBase.update`). An object is its instance dictionary (`__dict__`) together
    with the names its class declares (columns, relationships, methods), which
    `hasattr` also sees. */
module Records {

  /** A column value, as far as these helpers care: they only move values around. */
  datatype Value = Null | Bool(b: bool) | Int(i: int) | Text(s: string)

  datatype Obj = Obj(attrs: map<string, Value>, declared: set<string>)

  /** `hasattr(obj, key)`. */
  predicate HasAttr(o: Obj, key: string) {
    key in o.attrs || key in o.declared
  }

  /** Keys starting with an underscore are internal (SQLAlchemy's `_sa_instance_state`). */
  predicate Internal(key: string) {
    |key| > 0 && key[0] == '_'
  }

  /** `obj.to_dict(fields)`: the instance attributes that `hasattr` sees and that are not
      internal, restricted to `fields` unless `fields` is empty. */
  function ToDict(o: Obj, fields: seq<string>): (r: map<string, Value>)
    ensures forall k :: k in r ==> k in o.attrs && r[k] == o.attrs[k]
    ensures forall k :: k in r ==> !Internal(k) && (|fields| == 0 || k in fields)
  {
    if |fields| == 0 then
      map k | k in o.attrs && HasAttr(o, k) && !Internal(k) :: o.attrs[k]
    else
      map k | k in o.attrs && HasAttr(o, k) && !Internal(k) && k in fields :: o.attrs[k]
  }

  /** With no fields, every public instance attribute is returned with its value. */
  lemma ToDictAll(o: Obj)
    ensures forall k :: k in ToDict(o, []) <==> k in o.attrs && !Internal(k)
  {
  }

  /** With fields, the result is the full dictionary restricted to those fields: a
      sub-map of `to_dict()`. */
  lemma ToDictRestricts(o: Obj, fields: seq<string>)
    requires |fields| > 0
    ensures forall k :: k in ToDict(o, fields) <==> k in ToDict(o, []) && k in fields
    ensures forall k :: k in ToDict(o, fields) ==> ToDict(o, fields)[k] == ToDict(o, [])[k]
  {
  }

  /** `obj.update(data)`: every key of `data` that `hasattr` sees is set on the instance;
      the other keys are ignored. */
  function Update(o: Obj, data: map<string, Value>): (r: Obj)
    ensures r.declared == o.declared
    ensures forall k :: k in data && HasAttr(o, k) ==> k in r.attrs && r.attrs[k] == data[k]
    ensures forall k :: !(k in data && HasAttr(o, k)) ==>
      (k in r.attrs <==> k in o.attrs) && (k in o.attrs ==> r.attrs[k] == o.attrs[k])
  {
    Obj(o.attrs + map k | k in data && HasAttr(o, k) :: data[k], o.declared)
  }

  /** Updating never changes which names `hasattr` sees. */
  lemma UpdateKeepsAttributes(o: Obj, data: map<string, Value>, key: string)
    ensures HasAttr(Update(o, data), key) <==> HasAttr(o, key)
  {
  }

  /** Applying the same update twice is the same as applying it once. */
  lemma UpdateIdempotent(o: Obj, data: map<string, Value>)
    ensures Update(Update(o, data), data) == Update(o, data)
  {
    var once := Update(o, data);
    var twice := Update(once, data);
    assert twice.attrs == once.attrs;
  }
}
