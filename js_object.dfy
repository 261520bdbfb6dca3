/** What the model needs of JavaScript's plain objects: the names every
    object inherits, and the own key that breaks `hasOwnProperty`. */
module JsObject {

  /** The property names every object literal inherits from
      `Object.prototype`. A lookup of one of them on an object that does
      not own it finds the inherited member rather than `undefined`. */
  const ObjectPrototypeMembers: set<string> := {
    "constructor", "hasOwnProperty", "isPrototypeOf", "propertyIsEnumerable",
    "toLocaleString", "toString", "valueOf", "__proto__",
    "__defineGetter__", "__defineSetter__", "__lookupGetter__", "__lookupSetter__"}

  /** An object owning the key `hasOwnProperty`: on it, `o.hasOwnProperty(k)`
      finds that own value instead of the inherited method, and the call
      throws a TypeError. */
  predicate ShadowsHasOwnProperty(keys: set<string>) {
    "hasOwnProperty" in keys
  }
}
