/**
 * What the admin components' forms hold and what their submit handlers
 * produce.
 */
module Forms {

  /**
   * A value that is either the text an input field holds or a number from
   * the components' initial data (a default such as `frequency: 30`, a
   * coordinate such as `latitude: 40.7128`).
   */
  datatype Field = Text(text: string) | Number(value: real)

  /** JavaScript truthiness of a form value: `""` and `0` are falsy. */
  predicate Filled(f: Field) {
    match f
    case Text(t) => t != ""
    case Number(n) => n != 0.0
  }

  /**
   * The effect of a submit handler: it shows an alert and leaves the list
   * alone (`reason` says which guard stopped it), or it hands a new list to
   * the component's state.
   */
  datatype Submission<T, E> = Rejected(reason: E) | Saved(items: seq<T>)
}
