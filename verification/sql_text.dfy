/** Text building blocks of the SQL generator: statements with bind lists,
    joining with a separator, terminating every part with a separator,
    repetition (QString::repeated) and counting `?` placeholders. */
module SqlText {

  /** The kind of identifier the driver is asked to escape. */
  datatype IdentifierKind = TableName | FieldName

  /** The driver's identifier escaping. It is dialect-specific and is kept
      uninterpreted: every operation receives it as a parameter. */
  type Escaper = (string, IdentifierKind) -> string

  /** A prepared statement: its text and the values bound to its `?`s, in order. */
  datatype Statement<V> = Statement(sql: string, binds: seq<V>)

  /** `parts` separated by `sep`: one separator between neighbours and none
      before the first part or after the last. */
  function Join(parts: seq<string>, sep: string): string
  {
    if |parts| == 0 then ""
    else if |parts| == 1 then parts[0]
    else Join(parts[..|parts| - 1], sep) + sep + parts[|parts| - 1]
  }

  /** Every part followed by `sep`, concatenated: the trailing separator is kept. */
  function Terminated(parts: seq<string>, sep: string): string
  {
    if |parts| == 0 then "" else Terminated(parts[..|parts| - 1], sep) + parts[|parts| - 1] + sep
  }

  /** QString::repeated: `s` concatenated `n` times. */
  function Repeat(s: string, n: nat): (r: string)
    ensures |r| == n * |s|
  {
    if n == 0 then "" else Repeat(s, n - 1) + s
  }

  /** `n` copies of `s`. */
  function Copies(s: string, n: nat): (r: seq<string>)
    ensures |r| == n
    ensures forall i :: 0 <= i < n ==> r[i] == s
  {
    seq(n, _ => s)
  }

  /** Number of `?` placeholders in a statement text. */
  function Placeholders(s: string): nat
  {
    if |s| == 0 then 0 else Placeholders(s[..|s| - 1]) + (if s[|s| - 1] == '?' then 1 else 0)
  }

  /** Placeholders add up over concatenation. */
  lemma {:induction false} PlaceholdersConcat(a: string, b: string)
    ensures Placeholders(a + b) == Placeholders(a) + Placeholders(b)
    decreases |b|
  {
    if |b| > 0 {
      var b' := b[..|b| - 1];
      assert (a + b)[..|a + b| - 1] == a + b';
      PlaceholdersConcat(a, b');
    } else {
      assert a + b == a;
    }
  }

  /** Text without a `?` holds no placeholder. */
  lemma {:induction false} NoPlaceholders(s: string)
    requires '?' !in s
    ensures Placeholders(s) == 0
  {
    if |s| > 0 {
      assert s[..|s| - 1] + [s[|s| - 1]] == s;
      NoPlaceholders(s[..|s| - 1]);
    }
  }

  /** The key condition `=?;` holds a single placeholder. */
  lemma KeyConditionCount()
    ensures Placeholders("=?;") == 1
  {
    assert "=?;"[..2] == "=?";
    assert "=?"[..1] == "=";
  }

  /** Sum of the placeholder counts of `parts`. */
  function PlaceholdersIn(parts: seq<string>): nat
  {
    if |parts| == 0 then 0 else PlaceholdersIn(parts[..|parts| - 1]) + Placeholders(parts[|parts| - 1])
  }

  /** Appending one more part adds exactly one separator, and only when the
      list was not empty. */
  lemma JoinSnoc(parts: seq<string>, p: string, sep: string)
    ensures Join(parts + [p], sep) == if |parts| == 0 then p else Join(parts, sep) + sep + p
  {
    assert (parts + [p])[..|parts|] == parts;
  }

  /** Putting one more part in front adds exactly one separator, and only
      when the list was not empty. */
  lemma {:induction false} JoinCons(p: string, parts: seq<string>, sep: string)
    ensures Join([p] + parts, sep) == if |parts| == 0 then p else p + sep + Join(parts, sep)
  {
    if |parts| > 0 {
      var init := parts[..|parts| - 1];
      var last := parts[|parts| - 1];
      assert ([p] + parts)[..|parts|] == [p] + init;
      JoinCons(p, init, sep);
      if |init| == 0 {
        assert parts == [last];
      } else {
        assert Join(parts, sep) == Join(init, sep) + sep + last;
      }
    }
  }

  /** Joining and then appending one separator gives the same text as
      terminating every part: the join is the terminated text without its
      trailing separator. */
  lemma {:induction false} JoinThenSeparator(parts: seq<string>, sep: string)
    requires |parts| > 0
    ensures Join(parts, sep) + sep == Terminated(parts, sep)
  {
    if |parts| > 1 {
      var init := parts[..|parts| - 1];
      JoinThenSeparator(init, sep);
    }
  }

  /** Repeating a group followed by `sep` n times terminates n copies of the group. */
  lemma {:induction false} RepeatIsTerminated(g: string, sep: string, n: nat)
    ensures Repeat(g + sep, n) == Terminated(Copies(g, n), sep)
  {
    if n > 0 {
      RepeatIsTerminated(g, sep, n - 1);
      assert Copies(g, n)[..n - 1] == Copies(g, n - 1);
    }
  }

  /** Repeating "group + sep" n > 0 times and cutting off the last separator
      (the QString::resize the generator performs) yields the n groups
      joined by `sep`, with no trailing separator. */
  lemma RepeatTrimmedIsJoin(g: string, sep: string, n: nat)
    requires n > 0
    ensures |Repeat(g + sep, n)| >= |sep|
    ensures Repeat(g + sep, n)[..|Repeat(g + sep, n)| - |sep|] == Join(Copies(g, n), sep)
  {
    RepeatIsTerminated(g, sep, n);
    JoinThenSeparator(Copies(g, n), sep);
    var j := Join(Copies(g, n), sep);
    assert (j + sep)[..|j|] == j;
  }

  /** With a separator free of placeholders, the placeholders of a join are
      those of its parts. */
  lemma {:induction false} PlaceholdersJoin(parts: seq<string>, sep: string)
    requires Placeholders(sep) == 0
    ensures Placeholders(Join(parts, sep)) == PlaceholdersIn(parts)
  {
    if |parts| == 1 {
      assert parts[..0] == [];
    } else if |parts| > 1 {
      var init := parts[..|parts| - 1];
      PlaceholdersJoin(init, sep);
      PlaceholdersConcat(Join(init, sep), sep);
      PlaceholdersConcat(Join(init, sep) + sep, parts[|parts| - 1]);
    }
  }

  /** Parts that each hold `c` placeholders hold `|parts| * c` together. */
  lemma {:induction false} PlaceholdersInUniform(parts: seq<string>, c: nat)
    requires forall i :: 0 <= i < |parts| ==> Placeholders(parts[i]) == c
    ensures PlaceholdersIn(parts) == |parts| * c
  {
    if |parts| > 0 {
      PlaceholdersInUniform(parts[..|parts| - 1], c);
    }
  }
}
