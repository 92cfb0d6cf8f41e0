/**
 * An explicit, finite stand-in for the parts of Go's `reflect` package the
 * engine reads: a type's kind, its name and display string, and for a
 * struct its fields in declaration order with their tags.
 */
module Reflect {

  /** A struct tag, already split into its `key:"value"` pairs. */
  type Tag = map<string, string>

  /** `StructTag.Get(key)`: the value for `key`, or "" when it is absent. */
  function TagGet(tag: Tag, key: string): (v: string)
    ensures key !in tag ==> v == ""
    ensures key in tag ==> v == tag[key]
  {
    if key in tag then tag[key] else ""
  }

  /** A Go type: a basic or otherwise opaque type, a pointer, or a struct. */
  datatype GoType =
    | Basic(name: string)
    | Ptr(elem: GoType)
    | Struct(name: string, fields: seq<Field>)

  /** One field of a struct: `reflect.StructField`. */
  datatype Field = Field(name: string, typ: GoType, tag: Tag, anonymous: bool)

  /** `Type.Name()`: the defined name, "" for a pointer type. */
  function TypeName(t: GoType): (n: string)
    ensures t.Ptr? ==> n == ""
    ensures !t.Ptr? ==> n == t.name
  {
    match t
    case Basic(n) => n
    case Ptr(_) => ""
    case Struct(n, _) => n
  }

  /** `Type.String()`: a pointer type prints as `*` before its element. */
  function TypeString(t: GoType): (s: string)
    ensures t.Ptr? ==> |s| >= 1 && s[0] == '*'
  {
    match t
    case Basic(n) => n
    case Ptr(e) => "*" + TypeString(e)
    case Struct(n, _) => n
  }
}
