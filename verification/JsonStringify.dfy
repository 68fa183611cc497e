/** `JSON.stringify` against the canonical printer: the same text up to the order of members. */
module JsonStringify {
  import opened Order
  import opened Json
  import opened LedgerCommands

  /** A JSON value whose objects list their members in ascending order already. */
  ghost predicate InOrder(v: Value) {
    match v
    case Undefined => false
    case Arr(items) => forall i | 0 <= i < |items| :: InOrder(items[i])
    case Obj(members) =>
      && (forall i, j | 0 <= i < j < |members| :: Less(members[i].key, members[j].key))
      && forall i | 0 <= i < |members| :: InOrder(members[i].item)
    case _ => true
  }

  lemma SortOfAscending<T>(s: seq<Keyed<T>>)
    requires forall i, j | 0 <= i < j < |s| :: Less(s[i].key, s[j].key)
    ensures Sort(s) == s
  {
    forall i, j | 0 <= i < j < |s| ensures !Less(s[j].key, s[i].key) && s[i].key != s[j].key {
      LessTotal(s[i].key, s[j].key);
    }
    SortIsPermutation(s);
    SortIsSorted(s);
    forall x | x in Sort(s) ensures x in s { assert x in multiset(Sort(s)); }
    SortedIsUnique(Sort(s), s);
  }

  lemma {:induction false} AllMembers(members: seq<Keyed<Value>>)
    requires forall i | 0 <= i < |members| :: !members[i].item.Undefined?
    ensures |StringifyMembers(members)| == |members|
    ensures forall i | 0 <= i < |members| ::
      StringifyMembers(members)[i] == Quote(members[i].key) + ":" + Stringify(members[i].item)
  {
    if members != [] {
      AllMembers(members[1..]);
      assert forall i | 1 <= i < |members| :: members[i] == members[1..][i - 1];
    }
  }

  function Printed(p: Printer, members: seq<Keyed<Value>>): seq<Keyed<string>> {
    seq(|members|, i requires 0 <= i < |members| => Keyed(members[i].key, Print(p, members[i].item)))
  }

  /** On values in order both write the same text. */
  lemma {:induction false} StringifyIsPrint(p: Printer, v: Value)
    requires InOrder(v)
    ensures Stringify(v) == Print(p, v)
  {
    match v
    case Arr(items) =>
      forall i | 0 <= i < |items| ensures Stringify(items[i]) == PrintItem(p, items[i]) { StringifyIsPrint(p, items[i]); }
      assert seq(|items|, i requires 0 <= i < |items| => Stringify(items[i]))
          == seq(|items|, i requires 0 <= i < |items| => PrintItem(p, items[i]));
    case Obj(members) =>
      forall i | 0 <= i < |members| ensures Stringify(members[i].item) == Print(p, members[i].item) {
        StringifyIsPrint(p, members[i].item);
      }
      SortOfAscending(Printed(p, members));
      AllMembers(members);
      assert StringifyMembers(members) == Entries(Printed(p, members));
    case _ =>
  }

  /** A member that is `undefined` is left out. */
  lemma {:induction false} UndefinedIsLeftOut(front: seq<Keyed<Value>>, key: string, rest: seq<Keyed<Value>>)
    ensures Stringify(Obj(front + [Keyed(key, Undefined)] + rest)) == Stringify(Obj(front + rest))
  {
    MembersWithout(front, key, rest);
  }

  lemma {:induction false} MembersWithout(front: seq<Keyed<Value>>, key: string, rest: seq<Keyed<Value>>)
    ensures StringifyMembers(front + [Keyed(key, Undefined)] + rest) == StringifyMembers(front + rest)
  {
    var all := front + [Keyed(key, Undefined)] + rest;
    if front == [] {
      assert all[1..] == rest && front + rest == rest;
    } else {
      MembersWithout(front[1..], key, rest);
      assert all[1..] == front[1..] + [Keyed(key, Undefined)] + rest && (front + rest)[1..] == front[1..] + rest;
    }
  }
}
