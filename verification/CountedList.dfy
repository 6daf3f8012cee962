/** Counted lists as text, `count:item,item` or `count:null`, and the tokenizer that
    splits them (saiserialize.cpp, sonic-swss-common/common/tokenize.cpp). */
module CountedList {
  import opened Sai
  import opened Stored
  import opened NumberText

  /** Prints an item, or throws (None). */
  type Printer<!T> = T -> Option<string>
  type Parser<!T> = string -> Option<T>

  const NULL_TEXT := "null"

  // ------------------------------------------------------------ splitting text

  /** The place of the first `c`, or the length. For a text it is `std::string::find` of a
      character, the length standing for npos. */
  function IndexOf<T(==)>(s: seq<T>, c: T): (i: nat)
    ensures i <= |s| && forall k :: 0 <= k < i ==> s[k] != c
    ensures i < |s| ==> s[i] == c
  {
    if s == [] || s[0] == c then 0 else 1 + IndexOf(s[1..], c)
  }

  /** `swss::tokenize`: what `getline` yields from a string stream. An empty text has no
      token, and a separator at the end is not followed by an empty one. */
  function Tokens(s: string, sep: char): seq<string>
    decreases |s|
  {
    if s == "" then []
    else
      var i := IndexOf(s, sep);
      if i == |s| then [s] else [s[..i]] + Tokens(s[i + 1..], sep)
  }

  lemma IndexOfAbsent(s: string, c: char)
    requires c !in s
    ensures IndexOf(s, c) == |s|
  {
  }

  lemma {:induction false} IndexOfSplit(a: string, c: char, b: string)
    requires c !in a
    ensures IndexOf(a + [c] + b, c) == |a|
  {
    var s := a + [c] + b;
    if a != "" {
      assert s[1..] == a[1..] + [c] + b;
      IndexOfSplit(a[1..], c, b);
    }
  }

  lemma TokensHead(a: string, sep: char, b: string)
    requires sep !in a
    ensures Tokens(a + [sep] + b, sep) == [a] + Tokens(b, sep)
  {
    var s := a + [sep] + b;
    IndexOfSplit(a, sep, b);
    assert s[..|a|] == a && s[|a| + 1..] == b;
  }

  lemma TokensOne(a: string, sep: char)
    requires a != "" && sep !in a
    ensures Tokens(a, sep) == [a]
  {
    IndexOfAbsent(a, sep);
  }

  // ------------------------------------------------------------ printing lists

  function JoinItems<T>(items: seq<T>, show: Printer<T>): Option<string> {
    if items == [] then Some("")
    else
      match show(items[0])
      case None => None
      case Some(head) =>
        if |items| == 1 then Some(head)
        else
          match JoinItems(items[1..], show)
          case None => None
          case Some(rest) => Some(head + "," + rest)
  }

  /** `sai_serialize_list` with countOnly false */
  function ListText<T>(l: List<T>, show: Printer<T>): Option<string> {
    var count := Decimal(l.Count());
    if l.Null? || l.items == [] then Some(count + ":" + NULL_TEXT)
    else
      match JoinItems(l.items, show)
      case None => None
      case Some(text) => Some(count + ":" + text)
  }

  ghost function After(done: string, rest: Option<string>): Option<string> {
    match rest case None => None case Some(r) => Some(done + r)
  }

  method SerializeList<T>(l: List<T>, countOnly: bool, show: Printer<T>) returns (r: Option<string>)
    ensures r == if countOnly then Some(Decimal(l.Count())) else ListText(l, show)
  {
    var s := Decimal(l.Count());
    if countOnly {
      return Some(s);
    }
    if l.Null? || l.items == [] {
      assert s + ":null" == s + ":" + NULL_TEXT;
      return Some(s + ":null");
    }
    var text, i := "", 0;
    assert l.items[0..] == l.items;
    AfterNothing(JoinItems(l.items, show));
    while i < |l.items|
      invariant 0 <= i <= |l.items|
      invariant JoinItems(l.items, show) == After(text, JoinItems(l.items[i..], show))
    {
      JoinFrom(l.items, i, show);
      var item := show(l.items[i]);
      if item.None? {
        return None;
      }
      AfterItem(text, item.value, JoinItems(l.items[i + 1..], show));
      text := text + item.value;
      if i != |l.items| - 1 {
        text := text + ",";
      }
      i := i + 1;
    }
    assert text + "" == text;
    r := Some(s + ":" + text);
  }

  lemma JoinFrom<T>(items: seq<T>, i: nat, show: Printer<T>)
    requires i < |items|
    ensures show(items[i]).None? ==> JoinItems(items[i..], show) == None
    ensures show(items[i]).Some? ==>
      JoinItems(items[i..], show) == AfterHead(show(items[i]).value, i + 1 == |items|, JoinItems(items[i + 1..], show))
  {
    assert items[i..][0] == items[i] && items[i..][1..] == items[i + 1..];
  }

  ghost function AfterHead(head: string, last: bool, rest: Option<string>): Option<string> {
    if last then Some(head)
    else match rest case None => None case Some(r) => Some(head + "," + r)
  }

  lemma AfterNothing(rest: Option<string>)
    ensures After("", rest) == rest
  {
    if rest.Some? {
      assert "" + rest.value == rest.value;
    }
  }

  lemma AfterItem(done: string, item: string, rest: Option<string>)
    ensures After(done, AfterHead(item, true, rest)) == After(done + item, Some(""))
    ensures After(done, AfterHead(item, false, rest)) == After(done + item + ",", rest)
  {
    assert done + item + "" == done + item;
    if rest.Some? {
      assert done + (item + "," + rest.value) == done + item + "," + rest.value;
    }
  }

  // ------------------------------------------------------------- parsing lists

  function ParseItems<T>(tokens: seq<string>, read: Parser<T>): Option<seq<T>> {
    if tokens == [] then Some([])
    else
      match ParseItems(tokens[..|tokens| - 1], read)
      case None => None
      case Some(init) =>
        match read(tokens[|tokens| - 1])
        case None => None
        case Some(last) => Some(init + [last])
  }

  /** `sai_deserialize_list` with countOnly false; None is an exception. */
  function ParseList<T>(s: string, read: Parser<T>): Option<List<T>> {
    var pos := IndexOf(s, ':');
    if pos == |s| then None
    else
      match DeserializeNumber(U32, s[..pos], false)
      case None => None
      case Some(count) =>
        ParseElements(s[pos + 1..], count, read)
  }

  /** What follows the count. */
  function ParseElements<T>(list: string, count: int, read: Parser<T>): Option<List<T>> {
    if list == NULL_TEXT then (if count >= 0 then Some(Null(count)) else None)
    else
      var tokens := Tokens(list, ',');
      if |tokens| != count then None
      else
        match ParseItems(tokens, read)
        case None => None
        case Some(items) => Some(Items(items))
  }

  /** `swss::tokenize` */
  method Tokenize(s: string, sep: char) returns (tokens: seq<string>)
    ensures tokens == Tokens(s, sep)
  {
    tokens := [];
    var rest := s;
    while rest != ""
      invariant Tokens(s, sep) == tokens + Tokens(rest, sep)
      decreases |rest|
    {
      var i := IndexOf(rest, sep);
      if i == |rest| {
        return tokens + [rest];
      }
      assert tokens + ([rest[..i]] + Tokens(rest[i + 1..], sep)) == tokens + [rest[..i]] + Tokens(rest[i + 1..], sep);
      tokens, rest := tokens + [rest[..i]], rest[i + 1..];
    }
  }

  method DeserializeList<T>(s: string, read: Parser<T>) returns (r: Option<List<T>>)
    ensures r == ParseList(s, read)
  {
    var pos := IndexOf(s, ':');
    if pos == |s| {
      return None;
    }
    var count := DeserializeNumber(U32, s[..pos], false);
    if count.None? {
      return None;
    }
    r := DeserializeElements(s[pos + 1..], count.value, read);
  }

  method DeserializeElements<T>(list: string, count: int, read: Parser<T>) returns (r: Option<List<T>>)
    ensures r == ParseElements(list, count, read)
  {
    if list == NULL_TEXT {
      return if count >= 0 then Some(Null(count)) else None;
    }
    var tokens := Tokenize(list, ',');
    if |tokens| != count {
      return None;
    }
    var items := DeserializeItems(tokens, read);
    r := match items case None => None case Some(list) => Some(Items(list));
  }

  method DeserializeItems<T>(tokens: seq<string>, read: Parser<T>) returns (r: Option<seq<T>>)
    ensures r == ParseItems(tokens, read)
  {
    var items: seq<T>, i := [], 0;
    while i < |tokens|
      invariant 0 <= i <= |tokens|
      invariant ParseItems(tokens[..i], read) == Some(items)
    {
      var item := read(tokens[i]);
      assert tokens[..i + 1][..i] == tokens[..i];
      if item.None? {
        ParseItemsFails(tokens, i + 1, read);
        return None;
      }
      items := items + [item.value];
      i := i + 1;
    }
    assert tokens[..i] == tokens;
    r := Some(items);
  }

  lemma {:induction false} ParseItemsFails<T>(tokens: seq<string>, i: nat, read: Parser<T>)
    requires i <= |tokens| && ParseItems(tokens[..i], read).None?
    ensures ParseItems(tokens, read).None?
    decreases |tokens| - i
  {
    if i == |tokens| {
      assert tokens[..i] == tokens;
    } else {
      assert tokens[..i + 1][..i] == tokens[..i];
      ParseItemsFails(tokens, i + 1, read);
    }
  }

  // --------------------------------------------------------------- round trip

  /** An item's text survives the tokenizer and is not mistaken for a null list. */
  predicate ItemText(s: string) { s != "" && ',' !in s && s != NULL_TEXT }

  ghost predicate ItemInverts<T>(x: T, show: Printer<T>, read: Parser<T>) {
    show(x).Some? && ItemText(show(x).value) && read(show(x).value) == Some(x)
  }

  ghost predicate TokensOf<T>(tokens: seq<string>, items: seq<T>, show: Printer<T>) {
    |tokens| == |items| && forall i :: 0 <= i < |items| ==> tokens[i] == TextOf(items[i], show)
  }

  lemma {:induction false} JoinTokens<T>(items: seq<T>, show: Printer<T>, read: Parser<T>)
    requires items != [] && forall x <- items :: ItemInverts(x, show, read)
    ensures JoinItems(items, show).Some?
    ensures JoinItems(items, show).value !in {"", NULL_TEXT}
    ensures TokensOf(Tokens(JoinItems(items, show).value, ','), items, show)
  {
    assert items[0] in items && ItemInverts(items[0], show, read);
    var head := show(items[0]).value;
    if |items| == 1 {
      TokensOne(head, ',');
    } else {
      JoinTokens(items[1..], show, read);
      JoinTwo(head, JoinItems(items[1..], show).value);
    }
  }

  lemma JoinTwo(head: string, rest: string)
    requires ItemText(head)
    ensures head + "," + rest !in {"", NULL_TEXT}
    ensures Tokens(head + "," + rest, ',') == [head] + Tokens(rest, ',')
  {
    TokensHead(head, ',', rest);
    assert head + "," + rest == head + [','] + rest;
    assert (head + "," + rest)[|head|] == ',';
  }

  function TextOf<T>(x: T, show: Printer<T>): string { if show(x).Some? then show(x).value else "" }

  lemma {:induction false} ParseTexts<T>(items: seq<T>, n: nat, tokens: seq<string>, show: Printer<T>, read: Parser<T>)
    requires n <= |items| == |tokens| && forall x <- items :: ItemInverts(x, show, read)
    requires TokensOf(tokens, items, show)
    ensures ParseItems(tokens[..n], read) == Some(items[..n])
  {
    if n > 0 {
      assert tokens[..n][..n - 1] == tokens[..n - 1];
      ParseTexts(items, n - 1, tokens, show, read);
      assert ItemInverts(items[n - 1], show, read);
      assert items[..n] == items[..n - 1] + [items[n - 1]];
    }
  }

  lemma CountSplits(count: nat, list: string)
    requires count < 0x1_0000_0000
    ensures var s := Decimal(count) + ":" + list; var pos := IndexOf(s, ':');
            pos < |s| && s[..pos] == Decimal(count) && s[pos + 1..] == list
    ensures DeserializeNumber(U32, Decimal(count), false) == Some(count)
  {
    var s := Decimal(count) + ":" + list;
    assert s == Decimal(count) + [':'] + list;
    assert ':' !in Decimal(count);
    IndexOfSplit(Decimal(count), ':', list);
    NumberRoundTrip(U32, count, false);
  }

  lemma ItemsRoundTrip<T>(items: seq<T>, show: Printer<T>, read: Parser<T>)
    requires items != [] && forall x <- items :: ItemInverts(x, show, read)
    ensures JoinItems(items, show).Some? && JoinItems(items, show).value != NULL_TEXT
    ensures |Tokens(JoinItems(items, show).value, ',')| == |items|
    ensures ParseItems(Tokens(JoinItems(items, show).value, ','), read) == Some(items)
  {
    JoinTokens(items, show, read);
    var tokens := Tokens(JoinItems(items, show).value, ',');
    ParseTexts(items, |items|, tokens, show, read);
    assert items[..|items|] == items && tokens[..|items|] == tokens;
  }

  /** How a counted text reads once its count and its list are known. */
  lemma ParseCounted<T>(count: nat, list: string, read: Parser<T>)
    requires count < 0x1_0000_0000
    ensures ParseList(Decimal(count) + ":" + list, read) ==
      if list == NULL_TEXT then Some(Null(count))
      else if |Tokens(list, ',')| != count then None
      else match ParseItems(Tokens(list, ','), read) case None => None case Some(items) => Some(Items(items))
  {
    CountSplits(count, list);
  }

  /** A list whose items print and read back comes back with its items, or with its count
      and a null pointer when it had no items. */
  lemma ListRoundTrip<T>(l: List<T>, show: Printer<T>, read: Parser<T>)
    requires CountFits(l) && forall x <- l.Elements() :: ItemInverts(x, show, read)
    ensures ListText(l, show).Some?
    ensures ParseList(ListText(l, show).value, read) == Some(CanonList(l))
  {
    if l.Null? || l.items == [] {
      ParseCounted(l.Count(), NULL_TEXT, read);
    } else {
      ItemsRoundTrip(l.items, show, read);
      ParseCounted(|l.items|, JoinItems(l.items, show).value, read);
    }
  }

  /** A list with an item that throws throws. */
  lemma {:induction false} JoinThrows<T>(items: seq<T>, show: Printer<T>)
    ensures JoinItems(items, show).None? <==> exists x <- items :: show(x).None?
  {
    if items != [] {
      JoinThrows(items[1..], show);
      assert items == [items[0]] + items[1..];
    }
  }
}
