/** Unique readability: a printed text determines the value that was printed, up to the order of object members. */
module JsonReadability {
  import opened Order
  import opened Json

  /** What may follow a value inside a larger text. */
  ghost predicate Delimited(x: string) {
    |x| > 0 ==> x[0] in [',', ']', '}']
  }

  lemma EscapeReadable(c: char, d: char, x: string, y: string)
    requires Escape(c) + x == Escape(d) + y
    ensures c == d && x == y
  {
    var u, w := Escape(c) + x, Escape(d) + y;
    assert u[0] == Escape(c)[0] && w[0] == Escape(d)[0];
    if u[0] == '\\' {
      assert u[1] == Escape(c)[1] && w[1] == Escape(d)[1];
      if u[1] == 'u' {
        assert u[4] == Escape(c)[4] && w[4] == Escape(d)[4] && u[5] == Escape(c)[5] && w[5] == Escape(d)[5];
        HexDigitInjective(c as int / 16, d as int / 16);
        HexDigitInjective(c as int % 16, d as int % 16);
      }
    }
    assert c == d;
    assert x == u[|Escape(c)|..] && y == w[|Escape(d)|..];
  }

  lemma HexDigitInjective(m: nat, n: nat)
    requires m < 16 && n < 16 && HexDigit(m) == HexDigit(n)
    ensures m == n
  {
    assert forall i | 0 <= i < 10 :: HexDigit(i) as int == '0' as int + i;
    assert forall i | 10 <= i < 16 :: HexDigit(i) as int == 'a' as int + i - 10;
  }

  lemma EscapeAllSplit(s: string, x: string)
    requires s != []
    ensures EscapeAll(s) + x == Escape(s[0]) + (EscapeAll(s[1..]) + x)
    ensures |Escape(s[0])| > 0 && (EscapeAll(s) + x)[0] == Escape(s[0])[0] != '"'
  {
  }

  /** The body of a string literal up to its closing quote can be read back. */
  lemma {:induction false} EscapeAllReadable(s: string, t: string, x: string, y: string)
    requires |x| > 0 && |y| > 0 && x[0] == y[0] == '"'
    requires EscapeAll(s) + x == EscapeAll(t) + y
    ensures s == t && x == y
  {
    if s != [] { EscapeAllSplit(s, x); }
    if t != [] { EscapeAllSplit(t, y); }
    if s == [] || t == [] {
      assert EscapeAll([]) == [];
      assert s == [] ==> (EscapeAll(s) + x)[0] == x[0];
      assert t == [] ==> (EscapeAll(t) + y)[0] == y[0];
      assert s == t == [];
      assert EscapeAll(s) + x == x && EscapeAll(t) + y == y;
    } else {
      EscapeReadable(s[0], t[0], EscapeAll(s[1..]) + x, EscapeAll(t[1..]) + y);
      EscapeAllReadable(s[1..], t[1..], x, y);
      assert s == [s[0]] + s[1..] && t == [t[0]] + t[1..];
    }
  }

  lemma QuoteReadable(s: string, t: string, x: string, y: string)
    requires Quote(s) + x == Quote(t) + y
    ensures s == t && x == y
  {
    QuoteBody(s, x);
    QuoteBody(t, y);
    EscapeAllReadable(s, t, ['"'] + x, ['"'] + y);
    assert (['"'] + x)[1..] == x && (['"'] + y)[1..] == y;
  }

  lemma QuoteBody(s: string, x: string)
    ensures (Quote(s) + x)[1..] == EscapeAll(s) + (['"'] + x)
  {
    var body := EscapeAll(s);
    assert (['"'] + body + ['"'] + x)[1..] == body + (['"'] + x);
  }

  lemma BareStart(s: string, x: string)
    requires forall c | c in s :: !Structural(c)
    ensures if s == [] then s + x == x else (s + x)[0] !in [',', ']', '}']
  {
    if s != [] { assert s[0] in s; }
  }

  lemma {:induction false} BareReadable(s: string, t: string, x: string, y: string)
    requires forall c | c in s :: !Structural(c)
    requires forall c | c in t :: !Structural(c)
    requires Delimited(x) && Delimited(y) && s + x == t + y
    ensures s == t && x == y
  {
    if s == [] || t == [] {
      BareStart(s, x);
      BareStart(t, y);
    } else {
      assert (s + x)[0] == s[0] && (t + y)[0] == t[0];
      assert (s + x)[1..] == s[1..] + x && (t + y)[1..] == t[1..] + y;
      BareReadable(s[1..], t[1..], x, y);
      assert s == [s[0]] + s[1..] && t == [t[0]] + t[1..];
    }
  }

  /** The first character of a rendered form, if it has one, tells which kind of form it is. */
  lemma RenderStart(f: Form, x: string)
    requires Readable(f) && Delimited(x)
    ensures f.Quoted? ==> |Render(f) + x| > 0 && (Render(f) + x)[0] == '"'
    ensures f.FormList? ==> |Render(f) + x| > 0 && (Render(f) + x)[0] == '['
    ensures f.FormRecord? ==> |Render(f) + x| > 0 && (Render(f) + x)[0] == '{'
    ensures f.Bare? && |Render(f) + x| > 0 ==> (Render(f) + x)[0] !in ['"', '[', '{']
    ensures |Render(f)| > 0 ==> Render(f)[0] !in [',', ']', '}', ':']
  {
    if f.Bare? && |f.text| > 0 { assert f.text[0] in f.text; }
  }

  lemma {:induction false} RenderReadable(f: Form, g: Form, x: string, y: string)
    requires Readable(f) && Readable(g) && Delimited(x) && Delimited(y)
    requires Render(f) + x == Render(g) + y
    ensures f == g && x == y
    decreases f, 0
  {
    RenderStart(f, x);
    RenderStart(g, y);
    match f
    case Bare(s) => BareReadable(s, g.text, x, y);
    case Quoted(s) => QuoteReadable(s, g.text, x, y);
    case FormList(items) => ListReadable(items, g.items, x, y);
    case FormRecord(members) => RecordReadable(members, g.members, x, y);
  }

  lemma {:induction false} ListReadable(a: seq<Form>, b: seq<Form>, x: string, y: string)
    requires Readable(FormList(a)) && Readable(FormList(b))
    requires Render(FormList(a)) + x == Render(FormList(b)) + y
    ensures a == b && x == y
    decreases a, 3
  {
    var u, w := "]" + x, "]" + y;
    assert (Render(FormList(a)) + x)[1..] == RenderItems(a) + u;
    assert (Render(FormList(b)) + y)[1..] == RenderItems(b) + w;
    if a == [] || b == [] {
      EmptyItems(a, b, x, y);
      assert RenderItems(a) + u == u && RenderItems(b) + w == w;
    } else {
      ItemsReadable(a, b, u, w);
    }
    assert u[1..] == x && w[1..] == y;
  }

  lemma {:induction false} RecordReadable(a: seq<Keyed<Form>>, b: seq<Keyed<Form>>, x: string, y: string)
    requires Readable(FormRecord(a)) && Readable(FormRecord(b))
    requires Render(FormRecord(a)) + x == Render(FormRecord(b)) + y
    ensures a == b && x == y
    decreases a, 3
  {
    var u, w := "}" + x, "}" + y;
    RecordBody(a, x);
    RecordBody(b, y);
    if a == [] || b == [] {
      EmptyMembers(a, b, x, y);
      assert RenderMembers(a) + u == u && RenderMembers(b) + w == w;
    } else {
      MembersReadable(a, b, u, w);
    }
    assert u[1..] == x && w[1..] == y;
  }

  lemma RecordBody(a: seq<Keyed<Form>>, x: string)
    ensures (Render(FormRecord(a)) + x)[1..] == RenderMembers(a) + ("}" + x)
  {
    var body := RenderMembers(a);
    assert ("{" + body + "}" + x)[1..] == body + ("}" + x);
  }

  /** An empty list prints like no other readable list. */
  lemma EmptyItems(a: seq<Form>, b: seq<Form>, x: string, y: string)
    requires a == [] || b == []
    requires a != [Bare("")] && b != [Bare("")]
    requires forall i | 0 <= i < |a| :: Readable(a[i])
    requires forall i | 0 <= i < |b| :: Readable(b[i])
    requires RenderItems(a) + ("]" + x) == RenderItems(b) + ("]" + y)
    ensures a == b
  {
    if a != [] { NonEmptyItems(a, x); }
    if b != [] { NonEmptyItems(b, y); }
    assert a == [] ==> (RenderItems(a) + ("]" + x))[0] == ']';
    assert b == [] ==> (RenderItems(b) + ("]" + y))[0] == ']';
  }

  /** An empty object prints like no other. */
  lemma EmptyMembers(a: seq<Keyed<Form>>, b: seq<Keyed<Form>>, x: string, y: string)
    requires a == [] || b == []
    requires RenderMembers(a) + ("}" + x) == RenderMembers(b) + ("}" + y)
    ensures a == b
  {
    if a != [] { MembersSplit(a, "}" + x); }
    if b != [] { MembersSplit(b, "}" + y); }
    assert a == [] ==> (RenderMembers(a) + ("}" + x))[0] == '}';
    assert b == [] ==> (RenderMembers(b) + ("}" + y))[0] == '}';
  }

  lemma NonEmptyItems(a: seq<Form>, x: string)
    requires a != [] && a != [Bare("")] && Readable(a[0])
    ensures (RenderItems(a) + ("]" + x))[0] != ']'
  {
    RenderStart(a[0], "");
    if |a| == 1 {
      assert a == [a[0]];
      assert |Render(a[0])| > 0;
    } else if |Render(a[0])| == 0 {
      assert RenderItems(a)[0] == ',';
    } else {
      assert RenderItems(a)[0] == Render(a[0])[0];
    }
  }

  lemma Associate(a: string, b: string, c: string, d: string)
    ensures a + b + c + d == a + (b + (c + d))
  {
  }

  /** What follows the first item of a nonempty list text. */
  ghost function ItemsTail(a: seq<Form>, x: string): string
    requires a != []
  {
    if |a| == 1 then x else "," + (RenderItems(a[1..]) + x)
  }

  lemma ItemsSplit(a: seq<Form>, x: string)
    requires a != []
    ensures RenderItems(a) + x == Render(a[0]) + ItemsTail(a, x)
  {
    if |a| > 1 {
      var first, rest := Render(a[0]), RenderItems(a[1..]);
      assert RenderItems(a) == first + "," + rest;
      Associate(first, ",", rest, x);
    } else {
      assert RenderItems(a) == Render(a[0]);
    }
  }

  lemma HeadAndTail<T>(a: seq<T>)
    requires a != []
    ensures a == [a[0]] + a[1..]
  {
  }

  lemma {:induction false} ItemsReadable(a: seq<Form>, b: seq<Form>, x: string, y: string)
    requires a != [] && b != []
    requires forall i | 0 <= i < |a| :: Readable(a[i])
    requires forall i | 0 <= i < |b| :: Readable(b[i])
    requires |x| > 0 && |y| > 0 && x[0] == y[0] == ']'
    requires RenderItems(a) + x == RenderItems(b) + y
    ensures a == b && x == y
    decreases a, 1
  {
    var s, t := ItemsTail(a, x), ItemsTail(b, y);
    ItemsSplit(a, x);
    ItemsSplit(b, y);
    HeadAndTail(a);
    HeadAndTail(b);
    RenderReadable(a[0], b[0], s, t);
    assert s[0] == t[0];
    if |a| > 1 {
      assert s[1..] == RenderItems(a[1..]) + x && t[1..] == RenderItems(b[1..]) + y;
      ItemsReadable(a[1..], b[1..], x, y);
    }
  }

  /** What follows the first member of a nonempty object text. */
  ghost function MembersTail(a: seq<Keyed<Form>>, x: string): string
    requires a != []
  {
    if |a| == 1 then x else "," + (RenderMembers(a[1..]) + x)
  }

  lemma MembersSplit(a: seq<Keyed<Form>>, x: string)
    requires a != []
    ensures RenderMembers(a) + x == Quote(a[0].key) + (":" + (Render(a[0].item) + MembersTail(a, x)))
    ensures (RenderMembers(a) + x)[0] == '"'
  {
    var key, first := Quote(a[0].key), Render(a[0].item);
    if |a| > 1 {
      Associate(key + ":" + first, ",", RenderMembers(a[1..]), x);
    }
    Associate(key, ":", first, MembersTail(a, x));
    assert key[0] == '"';
  }

  lemma {:induction false} MembersReadable(a: seq<Keyed<Form>>, b: seq<Keyed<Form>>, x: string, y: string)
    requires a != [] && b != []
    requires forall i | 0 <= i < |a| :: Readable(a[i].item)
    requires forall i | 0 <= i < |b| :: Readable(b[i].item)
    requires |x| > 0 && |y| > 0 && x[0] == y[0] == '}'
    requires RenderMembers(a) + x == RenderMembers(b) + y
    ensures a == b && x == y
    decreases a, 1
  {
    var s, t := MembersTail(a, x), MembersTail(b, y);
    var u, w := Render(a[0].item) + s, Render(b[0].item) + t;
    MembersSplit(a, x);
    MembersSplit(b, y);
    HeadAndTail(a);
    HeadAndTail(b);
    QuoteReadable(a[0].key, b[0].key, ":" + u, ":" + w);
    assert (":" + u)[1..] == u && (":" + w)[1..] == w;
    RenderReadable(a[0].item, b[0].item, s, t);
    assert s[0] == t[0];
    if |a| > 1 {
      assert s[1..] == RenderMembers(a[1..]) + x && t[1..] == RenderMembers(b[1..]) + y;
      MembersReadable(a[1..], b[1..], x, y);
    }
  }
}
