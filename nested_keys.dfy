// keys_exist from redact-and-purge.py: does a chain of nested dictionary
// lookups succeed?

module NestedKeys {
  import opened Wire

  /** How a chain of lookups `element[k1][k2]...` ends. */
  datatype Walk =
    | Reached(value: Json)
    | Missing            // some dictionary lacked the key: KeyError
    | NotSubscriptable   // a key was applied to a list, string, number, ...: TypeError

  /** What keys_exist does: return a boolean, or raise. */
  datatype KeysResult =
    | Returned(present: bool)
    | AttributeError   // raised by keys_exist itself for bad arguments
    | TypeError        // raised by a lookup on a value that is not a dictionary

  /** The successive lookups `e[keys[0]][keys[1]]...`, first key first. */
  function Lookup(e: Json, keys: seq<string>): Walk
    decreases |keys|
  {
    if keys == [] then Reached(e)
    else match e
      case Object(fields) =>
        if keys[0] in fields then Lookup(fields[keys[0]], keys[1..]) else Missing
      case _ => NotSubscriptable
  }

  /** The outcome keys_exist promises for an element and its keys. */
  function KeysExistSpec(element: Json, keys: seq<string>): KeysResult
  {
    if !element.Object? || keys == [] then AttributeError
    else match Lookup(element, keys)
      case Reached(_) => Returned(true)
      case Missing => Returned(false)
      case NotSubscriptable => TypeError
  }

  /** Looking up `a + b` is looking up `a`, then `b` from where `a` ended. */
  lemma {:induction false} LookupAppend(e: Json, a: seq<string>, b: seq<string>)
    ensures Lookup(e, a + b) == match Lookup(e, a)
      case Reached(v) => Lookup(v, b)
      case other => other
    decreases |a|
  {
    if a == [] {
      assert a + b == b;
    } else if e.Object? && a[0] in e.fields {
      assert (a + b)[0] == a[0] && (a + b)[1..] == a[1..] + b;
      LookupAppend(e.fields[a[0]], a[1..], b);
    }
  }

  /**
   * keys_exist(element, *keys): rejects a non-dictionary element and an
   * empty key list, then walks the keys with a reassigned cursor.
   */
  method KeysExist(element: Json, keys: seq<string>) returns (r: KeysResult)
    ensures r == KeysExistSpec(element, keys)
    ensures r.Returned? <==> element.Object? && keys != [] && !Lookup(element, keys).NotSubscriptable?
    ensures r == Returned(true) <==> element.Object? && keys != [] && Lookup(element, keys).Reached?
  {
    if !element.Object? {
      return AttributeError;
    }
    if |keys| == 0 {
      return AttributeError;
    }
    var cursor := element;
    var i := 0;
    while i < |keys|
      invariant 0 <= i <= |keys|
      invariant Lookup(element, keys[..i]) == Reached(cursor)
    {
      LookupAppend(element, keys[..i], [keys[i]]);
      assert keys[..i] + [keys[i]] == keys[..i + 1];
      match cursor {
        case Object(fields) =>
          if keys[i] !in fields {
            LookupAppend(element, keys[..i + 1], keys[i + 1..]);
            assert keys[..i + 1] + keys[i + 1..] == keys;
            return Returned(false);
          }
          cursor := fields[keys[i]];
        case _ =>
          LookupAppend(element, keys[..i + 1], keys[i + 1..]);
          assert keys[..i + 1] + keys[i + 1..] == keys;
          return TypeError;
      }
      i := i + 1;
    }
    assert keys[..i] == keys;
    return Returned(true);
  }
}
