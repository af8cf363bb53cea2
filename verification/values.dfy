/** JavaScript values as the dashboard sees them: nullable strings and their truthiness. */
module Values {

  /** A value that may be absent (`null` or `undefined` in the source). */
  datatype Option<+T> = None | Some(value: T)

  /** A string column or form field that may be `null`/`undefined`. */
  type Nullable = Option<string>

  /** JavaScript truthiness of a nullable string: `null`, `undefined` and `""` are falsy. */
  predicate Truthy(o: Nullable) {
    o.Some? && o.value != ""
  }

  /** `o || d` for a nullable string. */
  function Or(o: Nullable, d: string): string {
    if Truthy(o) then o.value else d
  }

  /** `o || d` where the fallback is itself nullable. */
  function OrNullable(o: Nullable, d: Nullable): Nullable {
    if Truthy(o) then o else d
  }

  /** Template-literal interpolation `${o}` of a nullable string (a missing value prints as "null"). */
  function Interpolate(o: Nullable): string {
    if o.Some? then o.value else "null"
  }
}
