/** `EventStream.parse_event` after the XML parser: the children of the
    notification's root element, each a tag (`{namespace}localname`) and a
    text (`None` for an element without text), become a dictionary from the
    local name to the text. */
module EventParse {
  import opened Wrappers
  import opened Text

  /** One parsed notification: field name to field text. */
  type Event = map<string, Option<string>>

  /** A direct child of the notification's root element. */
  datatype Child = Child(tag: string, text: Option<string>)

  /** The IndexError of `tag.split('}')[1]` on a tag without a namespace. */
  datatype ParseError = TagWithoutNamespace(tag: string)

  /** `tag.split('}')[1]`: the text after the first '}' up to the next one. */
  function LocalName(tag: string): Option<string> {
    SecondField(tag, '}')
  }

  /** Namespace stripping undoes qualification. */
  lemma LocalNameOfQualified(ns: string, name: string)
    requires '}' !in ns && '}' !in name
    ensures LocalName("{" + ns + "}" + name) == Some(name)
  {
    assert '}' !in "{" + ns;
    assert "{" + ns + "}" + name + [] == "{" + ns + "}" + name;
    SecondFieldOfJoin("{" + ns, name, [], '}');
  }

  /** The dictionary comprehension, child by child in document order: a later
      child with the same local name overwrites an earlier one, and a tag
      without a '}' raises. */
  function ParseEvent(children: seq<Child>): Result<Event, ParseError>
    decreases |children|
  {
    if children == [] then Success(map[])
    else
      var n := |children| - 1;
      match ParseEvent(children[..n])
      case Failure(e) => Failure(e)
      case Success(m) =>
        match LocalName(children[n].tag)
        case None => Failure(TagWithoutNamespace(children[n].tag))
        case Some(key) => Success(m[key := children[n].text])
  }

  /** No child after index `i` has the same local name as child `i`. */
  predicate LastOfItsName(children: seq<Child>, i: int)
    requires 0 <= i < |children|
  {
    forall j :: i < j < |children| ==> LocalName(children[j].tag) != LocalName(children[i].tag)
  }

  /** Parsing fails exactly when some tag has no namespace. */
  lemma {:induction false} ParseEventFailsIff(children: seq<Child>)
    ensures ParseEvent(children).Failure? <==>
              exists i :: 0 <= i < |children| && LocalName(children[i].tag).None?
    decreases |children|
  {
    if children != [] {
      var n := |children| - 1;
      var init := children[..n];
      ParseEventFailsIff(init);
      assert forall i :: 0 <= i < n ==> init[i] == children[i];
    }
  }

  /** On success, every child contributes its local name as a key. */
  lemma {:induction false} ParseEventCoversChildren(children: seq<Child>)
    requires ParseEvent(children).Success?
    ensures forall i :: 0 <= i < |children| ==>
              LocalName(children[i].tag).Some? && LocalName(children[i].tag).value in ParseEvent(children).value
    decreases |children|
  {
    if children != [] {
      var n := |children| - 1;
      var init := children[..n];
      assert forall i :: 0 <= i < n ==> init[i] == children[i];
      ParseEventCoversChildren(init);
    }
  }

  /** On success, every key is the local name of some child. */
  lemma {:induction false} ParseEventKeysFromChildren(children: seq<Child>)
    requires ParseEvent(children).Success?
    ensures forall key :: key in ParseEvent(children).value ==>
              exists i :: 0 <= i < |children| && LocalName(children[i].tag) == Some(key)
    decreases |children|
  {
    if children != [] {
      var n := |children| - 1;
      var init := children[..n];
      ParseEventKeysFromChildren(init);
      var m0 := ParseEvent(init).value;
      var key := LocalName(children[n].tag).value;
      var m := ParseEvent(children).value;
      assert m == m0[key := children[n].text];
      forall k | k in m
        ensures exists i :: 0 <= i < |children| && LocalName(children[i].tag) == Some(k)
      {
        if k == key {
          assert LocalName(children[n].tag) == Some(k);
        } else {
          var i :| 0 <= i < n && LocalName(init[i].tag) == Some(k);
          assert init[i] == children[i];
        }
      }
    }
  }

  /** On success, the value of each key is the text of the LAST child with
      that local name: later duplicates overwrite earlier ones. */
  lemma {:induction false} ParseEventLastWins(children: seq<Child>)
    requires ParseEvent(children).Success?
    ensures forall i :: 0 <= i < |children| ==>
              LocalName(children[i].tag).Some? && LocalName(children[i].tag).value in ParseEvent(children).value
    ensures forall i :: 0 <= i < |children| && LastOfItsName(children, i) ==>
              ParseEvent(children).value[LocalName(children[i].tag).value] == children[i].text
    decreases |children|
  {
    ParseEventCoversChildren(children);
    if children != [] {
      var n := |children| - 1;
      var init := children[..n];
      ParseEventLastWins(init);
      ParseEventCoversChildren(init);
      var m0 := ParseEvent(init).value;
      var key := LocalName(children[n].tag).value;
      var m := ParseEvent(children).value;
      assert m == m0[key := children[n].text];
      forall i | 0 <= i < |children| && LastOfItsName(children, i)
        ensures m[LocalName(children[i].tag).value] == children[i].text
      {
        if i < n {
          assert init[i] == children[i];
          assert LocalName(children[n].tag) != LocalName(children[i].tag);
          forall j | i < j < n
            ensures LocalName(init[j].tag) != LocalName(init[i].tag)
          {
            assert init[j] == children[j];
          }
          assert LastOfItsName(init, i);
        }
      }
    }
  }

  /** A notification whose every tag is namespace-qualified parses, and its
      field names are the local names. */
  lemma ParseQualifiedField(ns: string, name: string, text: Option<string>)
    requires '}' !in ns && '}' !in name
    ensures ParseEvent([Child("{" + ns + "}" + name, text)]) == Success(map[name := text])
  {
    LocalNameOfQualified(ns, name);
    assert [Child("{" + ns + "}" + name, text)][..0] == [];
  }
}
