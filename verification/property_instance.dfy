/** A mutable property (org.qi4j.spi.property.PropertyInstance), as a value
    that set replaces. */
module PropertyInstance {
  import opened Results

  /** The property's descriptor; only its presence matters here. */
  datatype PropertyInfo = PropertyInfo(name: string)

  datatype PropertyError = IllegalArgument

  /** A property value that may be null. */
  datatype Property<+T> = Property(info: PropertyInfo, value: Option<T>)

  /** new PropertyInstance(info, value): the info must not be null. */
  function NewProperty<T>(info: Option<PropertyInfo>, value: Option<T>): (r: Result<Property<T>, PropertyError>)
    ensures r.Err? <==> info.None?
    ensures r.Ok? ==> r.value.info == info.value && Get(r.value) == value
  {
    match info
    case None => Err(IllegalArgument)
    case Some(i) => Ok(Property(i, value))
  }

  /** get(). */
  function Get<T>(p: Property<T>): Option<T> {
    p.value
  }

  /** set(v): stores `v` and returns it. */
  function Set<T>(p: Property<T>, v: Option<T>): (r: (Property<T>, Option<T>))
    ensures r.0.info == p.info && r.1 == v
    ensures Get(r.0) == v
  {
    (Property(p.info, v), v)
  }

  /** toString(): the empty string for null, else the value's own string. */
  function ToString<T>(p: Property<T>, show: T -> string): (s: string)
    ensures Get(p).None? ==> s == ""
    ensures Get(p).Some? ==> s == show(Get(p).value)
  {
    match p.value
    case None => ""
    case Some(v) => show(v)
  }

  /** get returns the constructor's value until the first set; setting what
      get returns changes nothing; a second set overrides the first. */
  lemma PropertyLaws<T>(info: PropertyInfo, v0: Option<T>, a: Option<T>, b: Option<T>)
    ensures NewProperty(Some(info), v0).Ok?
    ensures var p := NewProperty(Some(info), v0).value;
      && Get(p) == v0
      && Get(Set(p, a).0) == a
      && Set(p, Get(p)).0 == p
      && Set(Set(p, a).0, b).0 == Set(p, b).0
  {
  }
}
