/** The exception thrown when creating an entity whose identity is taken
    (org.qi4j.api.unitofwork.EntityCompositeAlreadyExistsException). */
module EntityExists {
  import opened Results

  const MessageHead: string := "EntityComposite ("
  const MessageMiddle: string := " of type "
  const MessageTail: string := ") already exists."

  /** What string concatenation makes of a possibly null string. */
  function Show(s: Option<string>): string {
    match s
    case None => "null"
    case Some(v) => v
  }

  datatype AlreadyExists = AlreadyExists(message: string, identity: Option<string>, entityType: Option<string>)

  /** new EntityCompositeAlreadyExistsException(identity, type). */
  function NewAlreadyExists(identity: Option<string>, entityType: Option<string>): (e: AlreadyExists)
    ensures e.identity == identity && e.entityType == entityType
    ensures |e.message| == |MessageHead| + |Show(identity)| + |MessageMiddle| + |Show(entityType)| + |MessageTail|
  {
    AlreadyExists(MessageHead + Show(identity) + MessageMiddle + Show(entityType) + MessageTail, identity, entityType)
  }

  /** identity(). */
  function Identity(e: AlreadyExists): Option<string> {
    e.identity
  }

  /** type(). */
  function Type(e: AlreadyExists): Option<string> {
    e.entityType
  }

  /** The accessors return what the constructor was given, and the message
      reads: the head, the identity, the middle, the type, the tail. */
  lemma AlreadyExistsShape(identity: Option<string>, entityType: Option<string>)
    ensures var e := NewAlreadyExists(identity, entityType);
      var i := |MessageHead|;
      var j := i + |Show(identity)|;
      var k := j + |MessageMiddle|;
      var l := k + |Show(entityType)|;
      && Identity(e) == identity && Type(e) == entityType
      && e.message[..i] == "EntityComposite ("
      && e.message[i..j] == Show(identity)
      && e.message[j..k] == " of type "
      && e.message[k..l] == Show(entityType)
      && e.message[l..] == ") already exists."
  {
    var a1 := MessageHead;
    var a2 := a1 + Show(identity);
    var a3 := a2 + MessageMiddle;
    var a4 := a3 + Show(entityType);
    var m := a4 + MessageTail;
    assert NewAlreadyExists(identity, entityType).message == m;
    Split(a4, MessageTail);
    Split(a3, Show(entityType));
    Split(a2, MessageMiddle);
    Split(a1, Show(identity));
    SliceOfPrefix(m, a4, |a3|);
    SliceOfPrefix(m, a3, |a2|);
    SliceOfPrefix(m, a2, |a1|);
    SliceOfPrefix(m, a1, 0);
  }

  /** The two halves of a concatenation. */
  lemma Split(a: string, b: string)
    ensures (a + b)[..|a|] == a && (a + b)[|a|..] == b
  {
  }

  /** A slice of a prefix is the same slice of the whole. */
  lemma SliceOfPrefix(m: string, p: string, i: nat)
    requires |p| <= |m| && m[..|p|] == p && i <= |p|
    ensures m[i..|p|] == p[i..]
  {
    assert forall t :: 0 <= t < |p| - i ==> m[i..|p|][t] == p[i + t];
  }

  /** A null identity or type is spelled "null". */
  lemma NullIsSpelledOut(entityType: Option<string>)
    ensures NewAlreadyExists(None, entityType).message[|MessageHead|..|MessageHead| + 4] == "null"
  {
    AlreadyExistsShape(None, entityType);
  }
}
