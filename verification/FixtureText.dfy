/** The text of a fixture file: a JSON array with one marshalled item a line. */
module FixtureText {

  /** What has been written once the items are: the array is still open. */
  function Opened(items: seq<string>): string
    decreases |items|
  {
    if items == [] then "[\n"
    else
      var n := |items| - 1;
      Opened(items[..n]) + (if n == 0 then "" else ",\n") + "  " + items[n]
  }

  function Closing(items: seq<string>): string {
    (if items == [] then "" else "\n") + "]\n"
  }

  /** The whole array, read from its first item on. */
  function Body(items: seq<string>): string {
    if items == [] then "]\n"
    else "  " + (if |items| == 1 then items[0] else items[0] + ",") + "\n" + Body(items[1..])
  }

  /** An indented item a line, a comma after all but the last, and a bracket of its own to end with. */
  lemma BodyIs(x: string, y: string, rest: seq<string>)
    ensures Body([]) == "]\n" && Body([x]) == "  " + x + "\n" + "]\n"
    ensures Body([x, y] + rest) == "  " + x + ",\n" + Body([y] + rest)
  {
    assert [x][1..] == [] && ([x, y] + rest)[1..] == [y] + rest;
    assert x + "," + "\n" == x + ",\n";
  }

  lemma ClosedIsArray(items: seq<string>)
    ensures Opened(items) + Closing(items) == "[\n" + Body(items)
  {
    if items != [] {
      FromHere(items, 0);
    }
  }

  /** The text after i items, and the print of the rest, is the whole text. */
  lemma {:induction false} FromHere(items: seq<string>, i: nat)
    requires i < |items|
    ensures Opened(items) + Closing(items) == Ahead(items, i) + Body(items[i..])
    decreases |items| - i
  {
    hide Body;
    OneMoreLine(items, i);
    if i + 1 < |items| {
      FromHere(items, i + 1);
    } else {
      assert items[..i + 1] == items;
      LastLine(items);
    }
  }

  lemma LastLine(items: seq<string>)
    requires items != []
    ensures Opened(items) + Closing(items) == Opened(items) + "\n" + Body(items[|items|..])
  {
    hide Opened;
    assert items[|items|..] == [];
    Regrouped(Opened(items), "\n", "]\n");
  }

  lemma Regrouped(a: string, b: string, c: string)
    ensures a + (b + c) == a + b + c
  {
  }

  function Ahead(items: seq<string>, i: nat): string
    requires i <= |items|
  {
    Opened(items[..i]) + if i == 0 then "" else if i == |items| then "\n" else ",\n"
  }

  lemma OneMoreLine(items: seq<string>, i: nat)
    requires i < |items|
    ensures Ahead(items, i) + Body(items[i..]) == Ahead(items, i + 1) + Body(items[i + 1..])
  {
    var before := items[..i + 1];
    assert before[..i] == items[..i] && items[i..][1..] == items[i + 1..];
    Grouped(Ahead(items, i), items[i], if i + 1 == |items| then "" else ",", Body(items[i + 1..]));
    if i + 1 == |items| {
      assert items[i] + "" == items[i];
    }
  }

  lemma Grouped(ahead: string, item: string, comma: string, rest: string)
    ensures (ahead + "  " + item) + (comma + "\n") + rest == ahead + ("  " + (item + comma) + "\n" + rest)
  {
  }

  // ----- reading it back

  function Line(s: string): (l: string)
    ensures |l| <= |s|
  {
    if s == "" || s[0] == '\n' then "" else [s[0]] + Line(s[1..])
  }

  /** The items of an array text's body: one a line, without the two spaces and the comma. */
  function Items(body: string): seq<string>
    decreases |body|
  {
    if |body| < 2 || body[0] != ' ' then []
    else
      var line := Line(body[2..]);
      if |body| <= |line| + 3 then []
      else
        var rest := body[|line| + 3..];
        if line == "" || rest[0] == ']' then [line] else [line[..|line| - 1]] + Items(rest)
  }

  lemma {:induction false} LineOf(a: string, b: string)
    requires '\n' !in a
    ensures Line(a + "\n" + b) == a
  {
    if a == "" {
      assert a + "\n" + b == "\n" + b;
    } else {
      LineOf(a[1..], b);
      assert (a + "\n" + b)[1..] == a[1..] + "\n" + b;
    }
  }

  /** Reading one line: the rest tells whether it was the last. */
  lemma OneItem(line: string, rest: string, x: string)
    requires rest != "" && '\n' !in x
    requires line == if rest[0] == ']' then x else x + ","
    ensures Items("  " + line + "\n" + rest) == if rest[0] == ']' then [x] else [x] + Items(rest)
  {
    hide Line;
    LineOf(line, rest);
    var body := "  " + line + "\n" + rest;
    assert body[2..] == line + "\n" + rest;
    assert body[|line| + 3..] == rest;
    assert (x + ",")[..|x|] == x;
  }

  /** The printed array reads back as its items, none of which holds a line break once marshalled. */
  lemma {:induction false} PrintReadsBack(items: seq<string>)
    requires forall x | x in items :: '\n' !in x
    ensures Items(Body(items)) == items
  {
    if items != [] {
      hide Items;
      var x, rest := items[0], Body(items[1..]);
      assert x in items && items == [x] + items[1..];
      var line := if |items| == 1 then x else x + ",";
      PrintReadsBack(items[1..]);
      OneItem(line, rest, x);
    }
  }
}
