/** The not-found exception of every service: BaseResourceNotFoundException
    builds its message from a resource type, a key name and a key value, and
    each entity's subclass fixes the resource type to the entity's name. */
module NotFound {
  import opened Base

  /** The exception as its callers see it: a runtime exception carrying
      its message. */
  datatype NotFoundError = NotFoundError(message: string)

  const Infix := " with "
  const Open := "["
  const Suffix := "] not found."

  /** The message passed to the RuntimeException constructor. */
  function Message(resourceType: string, keyName: string, keyValue: string): (m: string)
    ensures |m| == |resourceType| + |keyName| + |keyValue| + 19
    ensures m[..|resourceType|] == resourceType
    ensures m[|m| - 12..] == "] not found."
    ensures m[|resourceType| + |Infix| + |keyName| + 1 .. |m| - 12] == keyValue
  {
    var m := resourceType + Infix + keyName + Open + keyValue + Suffix;
    assert m == (resourceType + Infix + keyName + Open) + keyValue + Suffix;
    m
  }

  /** Reads the key value back out of a message, given the resource type and
      the key name; None when `m` is not a message of that shape. */
  function KeyValueOf(m: string, resourceType: string, keyName: string): (v: Option<string>)
    ensures v.Some? ==> Message(resourceType, keyName, v.value) == m
  {
    var head := resourceType + Infix + keyName + Open;
    if |m| >= |head| + |Suffix| && m[..|head|] == head && m[|m| - |Suffix|..] == Suffix then
      var v := m[|head| .. |m| - |Suffix|];
      assert m == m[..|head|] + v + m[|m| - |Suffix|..];
      Some(v)
    else
      None
  }

  /** The key value is recoverable from the message. */
  lemma KeyValueOfMessage(resourceType: string, keyName: string, keyValue: string)
    ensures KeyValueOf(Message(resourceType, keyName, keyValue), resourceType, keyName) == Some(keyValue)
  {
    var head := resourceType + Infix + keyName + Open;
    var m := Message(resourceType, keyName, keyValue);
    assert m == head + keyValue + Suffix;
    assert m[..|head|] == head;
    assert m[|head| .. |m| - |Suffix|] == keyValue;
  }

  /** Messages with the same resource type and key name differ whenever
      their key values differ. */
  lemma MessageDeterminesKeyValue(resourceType: string, keyName: string, v1: string, v2: string)
    requires Message(resourceType, keyName, v1) == Message(resourceType, keyName, v2)
    ensures v1 == v2
  {
    KeyValueOfMessage(resourceType, keyName, v1);
    KeyValueOfMessage(resourceType, keyName, v2);
  }

  /** The six resource names the subclasses pass to the base constructor. */
  datatype Resource = Customer | Booking | Aircraft | Flight | Airport | Airline
  {
    /** The literal each XNotFoundException constructor passes as the
        resource type: a capitalised word without spaces that names this
        resource and no other. */
    function Name(): (n: string)
      ensures ResourceNamed(n) == Some(this)
      ensures n != [] && 'A' <= n[0] <= 'Z'
      ensures forall i :: 0 <= i < |n| ==> n[i] != ' '
    {
      match this
      case Customer => "Customer"
      case Booking => "Booking"
      case Aircraft => "Aircraft"
      case Flight => "Flight"
      case Airport => "Airport"
      case Airline => "Airline"
    }
  }

  /** The resource whose name is `s`; None for any other string. */
  function ResourceNamed(s: string): Option<Resource> {
    if s == "Customer" then Some(Customer)
    else if s == "Booking" then Some(Booking)
    else if s == "Aircraft" then Some(Aircraft)
    else if s == "Flight" then Some(Flight)
    else if s == "Airport" then Some(Airport)
    else if s == "Airline" then Some(Airline)
    else None
  }

  /** The exception thrown by a subclass constructor such as
      CustomerNotFoundException(keyName, keyValue). */
  function ResourceNotFound(resource: Resource, keyName: string, keyValue: string): (e: NotFoundError)
    ensures |e.message| == |resource.Name()| + |keyName| + |keyValue| + 19
    ensures e.message[..|resource.Name()|] == resource.Name()
    ensures KeyValueOf(e.message, resource.Name(), keyName) == Some(keyValue)
  {
    KeyValueOfMessage(resource.Name(), keyName, keyValue);
    NotFoundError(Message(resource.Name(), keyName, keyValue))
  }

  // ------------------------------------------------- the id's string form

  predicate IsDigit(c: char) {
    '0' <= c <= '9'
  }

  function DigitChar(d: nat): (c: char)
    requires d < 10
    ensures IsDigit(c)
  {
    (48 + d) as char
  }

  function DigitValue(c: char): (d: nat)
    requires IsDigit(c)
    ensures d < 10
  {
    c as int - 48
  }

  /** The string form of an id that the services pass as the key value
      (decimal digits). */
  function IdText(id: Id): (s: string)
    ensures |s| >= 1
    ensures forall i :: 0 <= i < |s| ==> IsDigit(s[i])
  {
    if id < 10 then [DigitChar(id)] else IdText(id / 10) + [DigitChar(id % 10)]
  }

  /** The decimal value of a string of digits; None for anything else. */
  function ParseId(s: string): Option<Id> {
    if s == [] || !IsDigit(s[|s| - 1]) then None
    else if |s| == 1 then Some(DigitValue(s[0]))
    else
      match ParseId(s[..|s| - 1])
      case None => None
      case Some(n) => Some(10 * n + DigitValue(s[|s| - 1]))
  }

  /** Parsing the string form of an id gives the id back. */
  lemma {:induction false} ParseIdText(id: Id)
    ensures ParseId(IdText(id)) == Some(id)
  {
    var s := IdText(id);
    if id < 10 {
      assert DigitValue(DigitChar(id)) == id;
    } else {
      var prefix := IdText(id / 10);
      assert s == prefix + [DigitChar(id % 10)];
      assert s[..|s| - 1] == prefix;
      assert DigitValue(s[|s| - 1]) == id % 10;
      ParseIdText(id / 10);
    }
  }

  /** Distinct ids have distinct string forms. */
  lemma IdTextInjective(a: Id, b: Id)
    requires IdText(a) == IdText(b)
    ensures a == b
  {
    ParseIdText(a);
    ParseIdText(b);
  }

  /** The not-found message a service builds for a missing id names that id:
      reading the key value back and parsing it gives the id, so two
      different ids never produce the same message. */
  lemma NotFoundNamesId(resource: Resource, id: Id)
    ensures var v := KeyValueOf(ResourceNotFound(resource, "id", IdText(id)).message, resource.Name(), "id");
            v.Some? && ParseId(v.value) == Some(id)
  {
    ParseIdText(id);
  }

  lemma NotFoundIdInjective(resource: Resource, a: Id, b: Id)
    requires ResourceNotFound(resource, "id", IdText(a)) == ResourceNotFound(resource, "id", IdText(b))
    ensures a == b
  {
    MessageDeterminesKeyValue(resource.Name(), "id", IdText(a), IdText(b));
    IdTextInjective(a, b);
  }

  /** A not-found message names its resource: two not-found exceptions
      with the same message come from the same subclass, whatever their key
      names and values. */
  lemma NotFoundDeterminesResource(a: Resource, ka: string, va: string, b: Resource, kb: string, vb: string)
    requires ResourceNotFound(a, ka, va) == ResourceNotFound(b, kb, vb)
    ensures a == b
  {
    var na, nb := a.Name(), b.Name();
    var m := ResourceNotFound(a, ka, va).message;
    assert m == na + Infix + ka + Open + va + Suffix;
    assert m == nb + Infix + kb + Open + vb + Suffix;
    assert m[|na|] == ' ' && m[|nb|] == ' ';
    if |na| == |nb| {
      assert na == m[..|na|] == nb;
    }
  }
}
