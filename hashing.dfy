/**
 * The contextualized termcode hash: the join key between report strata and
 * ontology nodes (elastic_availability_generator.py, lines 8 and 21-26).
 *
 * The hash is `uuid3(namespace, name)`, where `name` is the plain
 * concatenation of five rendered fields. UUID version 3 itself (MD5) is not
 * modelled: it is an opaque, deterministic function passed in as `uuid3`.
 */
module Hashing {
  import opened Wrappers

  /** A JSON scalar as an f-string renders it: `null`, or any other value by its text. */
  datatype Value = Null | Text(text: string)

  /** A stratifier context from the stratum-to-context table. A field is `None` when its key is absent. */
  datatype Context = Context(system: Option<Value>, code: Option<Value>, version: Option<Value>)

  /** The coded value of one stratum. */
  datatype Termcode = Termcode(system: Value, code: Value)

  /** `uuid.uuid3(namespace, name)` rendered with `str`, as an opaque function of its two inputs. */
  type Uuid3 = (string, string) -> string

  /** The fixed all-zero namespace UUID. */
  const NamespaceUuid: string := "00000000-0000-0000-0000-000000000000"

  /** Python's `str()` of a scalar: `null` prints as `None`. */
  function Show(v: Value): string {
    match v
    case Null => "None"
    case Text(s) => s
  }

  /** `d.get(key, absent)` inside an f-string. */
  function ShowGet(field: Option<Value>, absent: string): string {
    match field
    case None => absent
    case Some(v) => Show(v)
  }

  /**
   * The hashed name: context system, context code, context version (empty
   * when absent), termcode system and termcode code, with no separators.
   * `dict.get` without a default yields `None`, so an absent system or code
   * contributes the text "None".
   */
  function HashInput(c: Context, t: Termcode): string
  {
    ShowGet(c.system, "None") + ShowGet(c.code, "None") + ShowGet(c.version, "")
      + Show(t.system) + Show(t.code)
  }

  /** `__get_contextualized_termcode_hash`. */
  function ContextualizedHash(uuid3: Uuid3, c: Context, t: Termcode): string {
    uuid3(NamespaceUuid, HashInput(c, t))
  }

  /** The hash depends on the pair only through the concatenated name. */
  lemma SameNameSameHash(uuid3: Uuid3, c1: Context, t1: Termcode, c2: Context, t2: Termcode)
    requires HashInput(c1, t1) == HashInput(c2, t2)
    ensures ContextualizedHash(uuid3, c1, t1) == ContextualizedHash(uuid3, c2, t2)
  {
  }

  /** An absent version contributes the same as an empty version string. */
  lemma AbsentVersionIsEmpty(uuid3: Uuid3, c: Context, t: Termcode)
    ensures ContextualizedHash(uuid3, c.(version := None), t)
         == ContextualizedHash(uuid3, c.(version := Some(Text(""))), t)
  {
  }

  /**
   * Because the fields are joined without separators, two different pairs
   * whose fields split the same text differently get the same hash.
   */
  lemma FieldBoundariesAreLost(uuid3: Uuid3)
    ensures var c1 := Context(Some(Text("ab")), Some(Text("c")), None);
            var c2 := Context(Some(Text("a")), Some(Text("bc")), None);
            var t := Termcode(Text("s"), Text("x"));
            c1 != c2 && ContextualizedHash(uuid3, c1, t) == ContextualizedHash(uuid3, c2, t)
  {
    var c1 := Context(Some(Text("ab")), Some(Text("c")), None);
    var c2 := Context(Some(Text("a")), Some(Text("bc")), None);
    var t := Termcode(Text("s"), Text("x"));
    assert HashInput(c1, t) == "abcsx" == HashInput(c2, t);
  }
}
