/** The JSON text of an object: its members in the order of their insertion (Cargo.toml:26 turns on
    serde_json's `preserve_order`). */
module JsonText {
  import opened Text
  import opened Conditions

  datatype Member = Member(key: string, value: Json)

  predicate DistinctKeys(items: seq<Member>) {
    forall i, j :: 0 <= i < j < |items| ==> items[i].key != items[j].key
  }

  predicate HasKey(items: seq<Member>, key: string) {
    exists m <- items :: m.key == key
  }

  /** The map that the members make, later ones winning. */
  function FieldsOf(items: seq<Member>): Context {
    if items == [] then map[]
    else
      var last := |items| - 1;
      FieldsOf(items[..last])[items[last].key := items[last].value]
  }

  // --- Text ------------------------------------------------------------------

  function HexDigit(n: nat): char
    requires n < 16
  {
    if n < 10 then '0' + n as char else 'a' + (n - 10) as char
  }

  function EscapeChar(c: char): (r: string)
    ensures r != []
  {
    if c == '"' then "\\\""
    else if c == '\\' then "\\\\"
    else if c as int == 8 then "\\b"
    else if c as int == 9 then "\\t"
    else if c as int == 10 then "\\n"
    else if c as int == 12 then "\\f"
    else if c as int == 13 then "\\r"
    else if c as int < 32 then ['\\', 'u', '0', '0', HexDigit(c as int / 16), HexDigit(c as int % 16)]
    else [c]
  }

  function Escaped(s: string): string {
    if s == [] then "" else EscapeChar(s[0]) + Escaped(s[1..])
  }

  /** The escaped string and its closing quote. */
  function Closed(s: string): string {
    Escaped(s) + "\""
  }

  function TextOf(j: Json): string {
    match j
    case Null => "null"
    case Str(s) => "\"" + Closed(s)
    case Scalar(text) => text
    case Object(_, text) => text
  }

  /** The members from some point on, and the closing brace. */
  function Members(items: seq<Member>, first: bool): string {
    if items == [] then "}"
    else (if first then "\"" else ",\"")
         + (Closed(items[0].key) + (":" + (TextOf(items[0].value) + Members(items[1..], false))))
  }

  function Render(items: seq<Member>): string {
    "{" + Members(items, true)
  }

  function ObjectOf(items: seq<Member>): Json {
    Object(FieldsOf(items), Render(items))
  }

  // --- Reading it back -----------------------------------------------------------

  function HexValue(c: char): Option<nat> {
    if '0' <= c <= '9' then Some(c as int - '0' as int)
    else if 'a' <= c <= 'f' then Some(c as int - 'a' as int + 10)
    else if 'A' <= c <= 'F' then Some(c as int - 'A' as int + 10)
    else None
  }

  /** What a backslash and this letter stand for (section 7 of RFC 8259), `u` aside. */
  function ShortEscape(c: char): Option<char> {
    match c
    case '"' => Some('"')
    case '\\' => Some('\\')
    case '/' => Some('/')
    case 'b' => Some(8 as char)
    case 'f' => Some(12 as char)
    case 'n' => Some(10 as char)
    case 'r' => Some(13 as char)
    case 't' => Some(9 as char)
    case _ => None
  }

  datatype Item = Item(c: char, length: nat)

  /** The next character inside a string, None at its end or at what is no string of the standard. */
  function ReadChar(s: string): Option<Item> {
    if s == "" || s[0] == '"' || s[0] as int < 32 then None
    else if s[0] != '\\' then Some(Item(s[0], 1))
    else if |s| >= 2 && ShortEscape(s[1]).Some? then Some(Item(ShortEscape(s[1]).value, 2))
    else if |s| >= 6 && s[1] == 'u' then
      (match (HexValue(s[2]), HexValue(s[3]), HexValue(s[4]), HexValue(s[5]))
       case (Some(a), Some(b), Some(c), Some(d)) =>
         var n := ((a * 16 + b) * 16 + c) * 16 + d;
         if n < 0xD800 then Some(Item(n as char, 6)) else None
       case _ => None)
    else None
  }

  /** The string that ends at the next quote, and the length of its text, that quote included. */
  function ReadString(s: string): Option<(string, nat)>
    decreases |s|
  {
    if s != "" && s[0] == '"' then Some(("", 1))
    else match ReadChar(s)
      case None => None
      case Some(item) =>
        if item.length == 0 || item.length > |s| then None
        else match ReadString(s[item.length..])
          case None => None
          case Some((rest, n)) => Some(([item.c] + rest, item.length + n))
  }

  lemma ReadsEscape(c: char, x: string)
    ensures ReadChar(EscapeChar(c) + x) == Some(Item(c, |EscapeChar(c)|))
    ensures (EscapeChar(c) + x)[0] != '"'
  {
    var s, e := EscapeChar(c) + x, EscapeChar(c);
    assert forall i :: 0 <= i < |e| ==> s[i] == e[i];
  }

  /** A reader of the standard's strings gets every string back from what is written for it. */
  lemma {:induction false} StringComesBack(s: string, x: string)
    ensures ReadString(Closed(s) + x) == Some((s, |Closed(s)|))
    decreases |s|
  {
    hide EscapeChar, ReadChar;
    var whole := Closed(s) + x;
    if s == "" {
      assert whole[0] == '"';
    } else {
      ClosedUnfolds(s, x);
      var head, tail := EscapeChar(s[0]), Closed(s[1..]) + x;
      ReadsEscape(s[0], tail);
      assert whole[|head|..] == tail;
      StringComesBack(s[1..], x);
      assert |Closed(s)| == |head| + |Closed(s[1..])|;
      assert [s[0]] + s[1..] == s;
    }
  }

  /** An object's text, member by member: braces, commas between, a colon after each quoted key. */
  lemma RenderGrows(items: seq<Member>, m: Member)
    ensures Render([]) == "{}"
    ensures var before := Render(items);
            Render(items + [m]) ==
            before[..|before| - 1]
            + ((if items == [] then "" else ",") + ("\"" + (Closed(m.key) + (":" + (TextOf(m.value) + "}")))))
  {
    hide TextOf, Closed, Members;
    MembersGrow(items, m, true);
    var end := "\"" + (Closed(m.key) + (":" + (TextOf(m.value) + "}")));
    BraceStays(Members(items, true), (if items == [] then "" else ",") + end);
    assert Members([], true) == "}" by { NoMembers(); }
  }

  lemma NoMembers()
    ensures Members([], true) == Members([], false) == "}"
  {
  }

  lemma BraceStays(before: string, end: string)
    requires before != ""
    ensures "{" + (before[..|before| - 1] + end) == ("{" + before)[..|before|] + end
  {
  }

  lemma {:induction false} MembersGrow(items: seq<Member>, m: Member, first: bool)
    ensures Members(items, first) != ""
    ensures var before := Members(items, first);
            Members(items + [m], first) ==
            before[..|before| - 1]
            + ((if first && items == [] then "" else ",") + ("\"" + (Closed(m.key) + (":" + (TextOf(m.value) + "}")))))
  {
    hide TextOf, Closed, Members;
    NoMembers();
    MembersUnfold(items + [m], first);
    var end := "\"" + (Closed(m.key) + (":" + (TextOf(m.value) + "}")));
    if items == [] {
      assert items + [m] == [m] && [m][1..] == [];
      assert "}"[..0] == "";
      NothingBefore((if first then "" else ",") + end);
      NothingBefore(end);
    } else {
      assert (items + [m])[0] == items[0] && (items + [m])[1..] == items[1..] + [m];
      MembersUnfold(items, first);
      MembersGrow(items[1..], m, false);
      var rest := Members(items[1..], false);
      LastCharStays(if first then "" else ",", Closed(items[0].key), TextOf(items[0].value), rest, "," + end);
    }
  }

  lemma NothingBefore(s: string)
    ensures "" + s == s
  {
  }

  lemma MembersUnfold(items: seq<Member>, first: bool)
    requires items != []
    ensures Members(items, first) ==
            (if first then "" else ",")
            + ("\"" + (Closed(items[0].key) + (":" + (TextOf(items[0].value) + Members(items[1..], false)))))
  {
    hide TextOf, Closed;
    Comma(Closed(items[0].key) + (":" + (TextOf(items[0].value) + Members(items[1..], false))));
  }

  lemma Comma(s: string)
    ensures ",\"" + s == "," + ("\"" + s) && "\"" + s == "" + ("\"" + s)
  {
  }

  lemma LastCharStays(comma: string, key: string, value: string, rest: string, end: string)
    requires rest != ""
    ensures var before := comma + ("\"" + (key + (":" + (value + rest))));
            comma + ("\"" + (key + (":" + (value + (rest[..|rest| - 1] + end))))) == before[..|before| - 1] + end
  {
    CutLast(value, rest, end);
    CutLast(":", value + rest, end);
    CutLast(key, ":" + (value + rest), end);
    CutLast("\"", key + (":" + (value + rest)), end);
    CutLast(comma, "\"" + (key + (":" + (value + rest))), end);
  }

  lemma CutLast(a: string, b: string, end: string)
    requires b != ""
    ensures a + (b[..|b| - 1] + end) == (a + b)[..|a + b| - 1] + end
  {
  }

  // --- The text tells the order ------------------------------------------------

  lemma EscapeIsPrefixFree(c: char, d: char, x: string, y: string)
    requires EscapeChar(c) + x == EscapeChar(d) + y
    ensures c == d
  {
    var s, t := EscapeChar(c) + x, EscapeChar(d) + y;
    assert s[0] == EscapeChar(c)[0] && t[0] == EscapeChar(d)[0];
    assert |EscapeChar(c)| >= 2 ==> s[1] == EscapeChar(c)[1];
    assert |EscapeChar(d)| >= 2 ==> t[1] == EscapeChar(d)[1];
    assert |EscapeChar(c)| == 6 ==> s[4] == EscapeChar(c)[4] && s[5] == EscapeChar(c)[5];
    assert |EscapeChar(d)| == 6 ==> t[4] == EscapeChar(d)[4] && t[5] == EscapeChar(d)[5];
  }

  lemma CancelPrefix(a: string, x: string, y: string)
    requires a + x == a + y
    ensures x == y
  {
    assert (a + x)[|a|..] == x && (a + y)[|a|..] == y;
  }

  lemma Regroup(a: string, b: string, c: string)
    ensures (a + b) + c == a + (b + c)
  {
  }

  /** A quoted string ends where its own closing quote is. */
  lemma {:induction false} ClosedIsPrefixFree(s: string, t: string, x: string, y: string)
    requires Closed(s) + x == Closed(t) + y
    ensures s == t && x == y
  {
    hide EscapeChar;
    QuoteEndsIt(s, x);
    QuoteEndsIt(t, y);
    if s == [] {
      assert Closed(s) == "\"" && Closed(t) == "\"";
      CancelPrefix("\"", x, y);
    } else {
      ClosedUnfolds(s, x);
      ClosedUnfolds(t, y);
      EscapeIsPrefixFree(s[0], t[0], Closed(s[1..]) + x, Closed(t[1..]) + y);
      CancelPrefix(EscapeChar(s[0]), Closed(s[1..]) + x, Closed(t[1..]) + y);
      ClosedIsPrefixFree(s[1..], t[1..], x, y);
    }
  }

  lemma ClosedUnfolds(s: string, x: string)
    requires s != []
    ensures Closed(s) + x == EscapeChar(s[0]) + (Closed(s[1..]) + x)
  {
    hide EscapeChar;
    Regroup(EscapeChar(s[0]), Escaped(s[1..]), "\"");
    Regroup(EscapeChar(s[0]), Closed(s[1..]), x);
  }

  lemma QuoteEndsIt(s: string, x: string)
    ensures (Closed(s) + x)[0] == '"' <==> s == []
  {
    if s != [] {
      ClosedUnfolds(s, x);
      assert (Closed(s) + x)[0] == EscapeChar(s[0])[0];
    }
  }

  predicate SameMembers(xs: seq<Member>, ys: seq<Member>) {
    (forall m <- xs :: m in ys) && (forall m <- ys :: m in xs)
  }

  /** Two lists of the same members have the same text only in the same order. */
  lemma {:induction false} MembersTellOrder(xs: seq<Member>, ys: seq<Member>, first: bool)
    requires DistinctKeys(xs) && DistinctKeys(ys) && SameMembers(xs, ys)
    requires Members(xs, first) == Members(ys, first)
    ensures xs == ys
  {
    hide Closed, TextOf;
    BothEmpty(xs, ys);
    if xs != [] {
      var lead := if first then "\"" else ",\"";
      var x := ":" + (TextOf(xs[0].value) + Members(xs[1..], false));
      var y := ":" + (TextOf(ys[0].value) + Members(ys[1..], false));
      CancelPrefix(lead, Closed(xs[0].key) + x, Closed(ys[0].key) + y);
      ClosedIsPrefixFree(xs[0].key, ys[0].key, x, y);
      assert xs[0] in ys && ys[0] in ys;
      assert xs[0] == ys[0];
      CancelPrefix(":", TextOf(xs[0].value) + Members(xs[1..], false), TextOf(ys[0].value) + Members(ys[1..], false));
      CancelPrefix(TextOf(xs[0].value), Members(xs[1..], false), Members(ys[1..], false));
      RestKeepsMembers(xs, ys);
      MembersTellOrder(xs[1..], ys[1..], false);
    }
  }

  lemma BothEmpty(xs: seq<Member>, ys: seq<Member>)
    requires SameMembers(xs, ys)
    ensures xs == [] <==> ys == []
  {
    if xs != [] {
      assert xs[0] in ys;
    }
    if ys != [] {
      assert ys[0] in xs;
    }
  }

  lemma RestKeepsMembers(xs: seq<Member>, ys: seq<Member>)
    requires xs != [] && ys != [] && xs[0] == ys[0]
    requires DistinctKeys(xs) && DistinctKeys(ys) && SameMembers(xs, ys)
    ensures SameMembers(xs[1..], ys[1..])
  {
    forall m | m in xs[1..] ensures m in ys[1..] {
      assert m in xs && m != xs[0];
    }
    forall m | m in ys[1..] ensures m in xs[1..] {
      assert m in ys && m != ys[0];
    }
  }

  lemma {:induction false} FieldsAreMembers(items: seq<Member>)
    requires DistinctKeys(items)
    ensures forall m <- items :: m.key in FieldsOf(items) && FieldsOf(items)[m.key] == m.value
    ensures forall k <- FieldsOf(items) :: Member(k, FieldsOf(items)[k]) in items
  {
    if items != [] {
      FieldsAreMembers(items[..|items| - 1]);
    }
  }

  /** An object tells its members and their order. */
  lemma ObjectTellsOrder(xs: seq<Member>, ys: seq<Member>)
    requires DistinctKeys(xs) && DistinctKeys(ys)
    ensures ObjectOf(xs) == ObjectOf(ys) <==> xs == ys
  {
    hide FieldsOf, Members;
    if ObjectOf(xs) == ObjectOf(ys) {
      FieldsAreMembers(xs);
      FieldsAreMembers(ys);
      assert SameMembers(xs, ys);
      CancelPrefix("{", Members(xs, true), Members(ys, true));
      MembersTellOrder(xs, ys, true);
    }
  }
}
