/** The join of rpt.tuning_candidates between tables and index findings, by name: equality or LIKE 'schema.table.%'. */
module TuningJoin {
  import opened Common
  import opened Patterns

  /** What index_ops records: 'schema.table' for a missing index, 'schema.table.index' for an unused one. */
  function ObjectName(schema: string, table: string, index: Option<string>): string {
    schema + "." + (table + IndexPart(index))
  }

  function IndexPart(index: Option<string>): string {
    if index.Some? then "." + index.value else ""
  }

  /** The text a finding is matched against, without the percent sign. */
  function Head(schema: string, table: string): string {
    schema + "." + (table + ".")
  }

  predicate Joins(finding: string, schema: string, table: string) {
    finding == schema + "." + table || Like(finding, Head(schema, table) + "%")
  }

  /** The two names as index_ops prints them, and the condition as the view has it. */
  lemma NamesPrinted(schema: string, table: string, index: string, finding: string)
    ensures ObjectName(schema, table, None) == schema + "." + table
    ensures ObjectName(schema, table, Some(index)) == schema + "." + table + "." + index
    ensures Joins(finding, schema, table)
            <==> finding == schema + "." + table || Like(finding, schema + "." + table + ".%")
  {
    assert table + "" == table;
    assert Head(schema, table) + "%" == schema + "." + table + ".%";
  }

  predicate Plain(name: string) {
    Literal(name) && '.' !in name
  }

  /** The first dot after a dot-free name is where the name ends. */
  lemma {:induction false} FirstDot(a: string, x: string, b: string, y: string)
    requires '.' !in a && '.' !in b && a + "." + x == b + "." + y
    ensures a == b && x == y
  {
    var s, t := a + "." + x, b + "." + y;
    assert a != "" ==> s[0] == a[0];
    assert b != "" ==> t[0] == b[0];
    if a == "" {
      assert s[0] == '.';
      assert s[1..] == x && t[1..] == y;
    } else {
      assert s[1..] == a[1..] + "." + x && t[1..] == b[1..] + "." + y;
      FirstDot(a[1..], x, b[1..], y);
      assert a == [a[0]] + a[1..] && b == [b[0]] + b[1..];
    }
  }

  lemma DotInside(a: string, rest: string)
    ensures '.' in a + "." + rest
  {
    assert (a + "." + rest)[|a|] == '.';
  }

  /** Text without brackets is LIKE itself with anything appended, whatever other wildcards it holds. */
  lemma {:induction false} LikeItself(text: string, rest: string)
    requires '[' !in text
    ensures Like(text + rest, text + "%")
  {
    if text == "" {
      assert "" + rest == rest && "" + "%" == "%";
      PercentMatchesAll(rest);
    } else {
      var s, p := text + rest, text + "%";
      LikeItself(text[1..], rest);
      assert s[1..] == text[1..] + rest && p[1..] == text[1..] + "%";
      if text[0] == '%' {
        assert p == "%" + p[1..];
        LikeAfterPercent(s[1..], p);
      }
    }
  }

  lemma LikeAfterPercent(s: string, p: string)
    requires p != "" && p[0] == '%' && Like(s, p[1..])
    ensures Like(s, p)
  {
  }

  lemma UnusedIndexName(schema: string, table: string, index: string)
    ensures ObjectName(schema, table, Some(index)) == Head(schema, table) + index
    ensures ObjectName(schema, table, Some(index)) != schema + "." + table
  {
    assert |ObjectName(schema, table, Some(index))| > |schema + "." + table|;
  }

  lemma UnusedIndexJoins(schema: string, table: string, index: string)
    requires Like(Head(schema, table), Head(schema, table) + "%")
    ensures Joins(ObjectName(schema, table, Some(index)), schema, table)
  {
    var head := Head(schema, table);
    var n := LikeSplit(head, head);
    UnusedIndexName(schema, table, index);
    LikeJoin(head[..n], head[n..] + index, head);
    assert head[..n] + (head[n..] + index) == head + index;
  }

  /**
   A table's own missing indexes always join. Its unused ones do, all of them, exactly when the text is LIKE itself,
   that is, when the one with the empty name would; names without brackets are enough.
   */
  lemma OwnFindingsJoin(schema: string, table: string)
    ensures Joins(ObjectName(schema, table, None), schema, table)
    ensures (forall index :: Joins(ObjectName(schema, table, index), schema, table))
            <==> Like(Head(schema, table), Head(schema, table) + "%")
    ensures '[' !in schema && '[' !in table ==>
              forall index :: Joins(ObjectName(schema, table, index), schema, table)
  {
    var head := Head(schema, table);
    assert table + "" == table;
    if Like(head, head + "%") {
      forall index ensures Joins(ObjectName(schema, table, index), schema, table) {
        if index.Some? { UnusedIndexJoins(schema, table, index.value); }
      }
    } else {
      UnusedIndexName(schema, table, "");
      assert head + "" == head;
      assert !Joins(ObjectName(schema, table, Some("")), schema, table);
    }
    if '[' !in schema && '[' !in table {
      LikeItself(head, "");
      assert head + "" == head;
    }
  }

  /** A bracket in the table's name that nothing closes loses all its unused indexes, and lets no stranger in. */
  lemma UnclosedBracketLoses(schema: string, before: string, after: string, finding: string)
    requires '[' !in schema && '[' !in before && ']' !in after
    ensures Joins(finding, schema, before + ("[" + after)) <==> finding == schema + "." + (before + ("[" + after))
  {
    var front, back := schema + "." + before, after + ".%";
    UnclosedMatchesNothing(finding, front, back);
    assert Head(schema, before + ("[" + after)) + "%" == front + ("[" + back);
  }

  /** A set that is closed reads as one character: the table '[c]' loses its own index to the one of table 'c'. */
  lemma ClosedBracketSwaps(schema: string, c: char, index: string)
    requires Plain(schema) && c !in "[]^"
    ensures !Joins(ObjectName(schema, "[" + [c] + "]", Some(index)), schema, "[" + [c] + "]")
    ensures Joins(ObjectName(schema, [c], Some(index)), schema, "[" + [c] + "]")
  {
    var table, front, back := "[" + [c] + "]", schema + ".", "[" + ([c] + ("]" + ".%"));
    UnusedIndexName(schema, table, index);
    assert Head(schema, table) + "%" == front + back;
    var own, other := table + "." + index, [c] + "." + index;
    assert ObjectName(schema, table, Some(index)) == front + own;
    assert ObjectName(schema, [c], Some(index)) == front + other;
    LiteralThen(front + own, front, back);
    LiteralThen(front + other, front, back);
    assert (front + own)[|front|..] == own && (front + other)[|front|..] == other;
    OneCharacterSet(own, c, ".%");
    OneCharacterSet(other, c, ".%");
    assert other[1..] == "." + index && ".%" == "." + "%";
    LikePrefix("." + index, ".");
  }

  lemma EqualNames(schema: string, table: string, schema': string, table': string, index': Option<string>)
    requires Plain(schema) && Plain(table) && '.' !in schema'
    requires ObjectName(schema', table', index') == schema + "." + table
    ensures schema == schema' && table == table'
  {
    FirstDot(schema', table' + IndexPart(index'), schema, table);
    assert table' + "" == table';
  }

  lemma PrefixedNames(schema: string, table: string, schema': string, table': string, index': Option<string>,
                      rest: string)
    requires Plain(schema) && Plain(table) && '.' !in schema' && '.' !in table'
    requires ObjectName(schema', table', index') == schema + "." + (table + "." + rest)
    ensures schema == schema' && table == table'
  {
    FirstDot(schema', table' + IndexPart(index'), schema, table + "." + rest);
    DotInside(table, rest);
    if index'.Some? {
      assert table' + IndexPart(index') == table' + "." + index'.value;
      FirstDot(table', index'.value, table, rest);
    }
  }

  lemma PlainNamesJoinTheirOwn(schema: string, table: string, schema': string, table': string,
                               index': Option<string>)
    requires Plain(schema) && Plain(table) && '.' !in schema' && '.' !in table'
    ensures Joins(ObjectName(schema', table', index'), schema, table) <==> schema == schema' && table == table'
  {
    var finding := ObjectName(schema', table', index');
    var head := Head(schema, table);
    OwnFindingsJoin(schema, table);
    LikePrefix(finding, head);
    if finding == schema + "." + table {
      EqualNames(schema, table, schema', table', index');
    } else if head <= finding {
      var rest := finding[|head|..];
      assert finding == schema + "." + (table + "." + rest);
      PrefixedNames(schema, table, schema', table', index', rest);
    }
  }

  // ---------- Strangers ----------

  predicate Wildcard(c: char) {
    c == '%' || c == '_'
  }

  /** A wildcard lets any other character stand in its place. */
  lemma {:induction false} WildcardAdmits(text: string, i: nat, c: char, rest: string)
    requires i < |text| && Wildcard(text[i]) && '[' !in text
    ensures Like(text[i := c] + rest, text + "%")
  {
    var s, p, tail := text[i := c] + rest, text + "%", text[1..];
    assert p[1..] == tail + "%";
    if i == 0 {
      assert s[1..] == tail + rest;
      LikeItself(tail, rest);
      if text[0] == '%' { LikeAfterPercent(s[1..], p); }
    } else {
      WildcardAdmits(tail, i - 1, c, rest);
      assert s[1..] == tail[i - 1 := c] + rest;
      if text[0] == '%' { LikeAfterPercent(s[1..], p); }
    }
  }

  lemma {:induction false} SplitAtDot(name: string) returns (before: string, after: string)
    requires '.' in name
    ensures '.' !in before && name == before + "." + after
  {
    if name[0] == '.' {
      before, after := "", name[1..];
    } else {
      before, after := SplitAtDot(name[1..]);
      before := [name[0]] + before;
    }
  }

  lemma WildcardAt(name: string) returns (i: nat)
    requires !Literal(name) && '[' !in name
    ensures i < |name| && Wildcard(name[i])
  {
    i :| 0 <= i < |name| && (name[i] == '%' || name[i] == '_');
  }

  /** A dot in a name makes the whole read as the name of another table's index ... */
  lemma DotAdmits(schema: string, table: string) returns (schema': string, table': string, index: string)
    requires '.' in schema || '.' in table
    ensures '.' !in schema' && '.' !in table' && (schema' != schema || table' != table)
    ensures ObjectName(schema', table', Some(index)) == schema + "." + table
  {
    if '.' in schema {
      var rest;
      schema', rest := SplitAtDot(schema);
      DotInside(rest, table);
      table', index := SplitAtDot(rest + "." + table);
      assert schema + "." + table == schema' + "." + (rest + "." + table);
    } else {
      schema' := schema;
      table', index := SplitAtDot(table);
    }
    assert table' + "." + index == table' + IndexPart(Some(index));
  }

  /** ... and a wildcard makes it match a name with another character there. */
  lemma WildcardInSchema(schema: string, table: string, i: nat)
    requires i < |schema| && Wildcard(schema[i]) && '[' !in schema && '[' !in table
    ensures Joins(ObjectName(schema[i := 'x'], table, Some("")), schema, table)
  {
    var other := schema[i := 'x'];
    WildcardAdmits(Head(schema, table), i, 'x', "");
    assert Head(schema, table)[i := 'x'] == Head(other, table);
    assert Head(other, table) + "" == ObjectName(other, table, Some(""));
  }

  lemma WildcardInTable(schema: string, table: string, i: nat)
    requires i < |table| && Wildcard(table[i]) && '[' !in schema && '[' !in table
    ensures Joins(ObjectName(schema, table[i := 'x'], Some("")), schema, table)
  {
    var other := table[i := 'x'];
    var j := |schema| + 1 + i;
    assert Head(schema, table)[j] == table[i];
    WildcardAdmits(Head(schema, table), j, 'x', "");
    assert Head(schema, table)[j := 'x'] == Head(schema, other);
    assert Head(schema, other) + "" == ObjectName(schema, other, Some(""));
  }

  /** For every name with a dot, or without brackets but with a wildcard, some other table's finding joins. */
  lemma StrangerJoins(schema: string, table: string)
    returns (schema': string, table': string, index': Option<string>)
    requires !Plain(schema) || !Plain(table)
    requires '.' in schema || '.' in table || ('[' !in schema && '[' !in table)
    ensures '.' !in schema' && '.' !in table' && (schema' != schema || table' != table)
    ensures Joins(ObjectName(schema', table', index'), schema, table)
  {
    if '.' in schema || '.' in table {
      var index;
      schema', table', index := DotAdmits(schema, table);
      index' := Some(index);
    } else if !Literal(schema) {
      var i := WildcardAt(schema);
      WildcardInSchema(schema, table, i);
      schema', table', index' := schema[i := 'x'], table, Some("");
    } else {
      var i := WildcardAt(table);
      WildcardInTable(schema, table, i);
      schema', table', index' := schema, table[i := 'x'], Some("");
    }
  }

  // ---------- Brackets ----------

  /** One more character somewhere before the last dot makes the text of another table. */
  lemma OtherHead(schema: string, table: string, i: nat) returns (schema': string, table': string)
    requires '.' !in schema && '.' !in table && i < |Head(schema, table)|
    ensures '.' !in schema' && '.' !in table' && (schema' != schema || table' != table)
    ensures Head(schema, table)[..i] + "x" + Head(schema, table)[i..] == Head(schema', table')
  {
    var head := Head(schema, table);
    if i <= |schema| {
      schema', table' := schema[..i] + "x" + schema[i..], table;
      assert head[..i] == schema[..i] && head[i..] == schema[i..] + "." + (table + ".");
    } else {
      var j := i - |schema| - 1;
      schema', table' := schema, table[..j] + "x" + table[j..];
      assert head[..i] == schema + "." + table[..j] && head[i..] == table[j..] + ".";
    }
  }

  /** The dots of the text are the two printed ones. */
  lemma DotsOfHead(schema: string, table: string, i: nat)
    requires '.' !in schema && '.' !in table && i < |Head(schema, table)| && Head(schema, table)[i] == '.'
    ensures i == |schema| || i == |Head(schema, table)| - 1
  {
    var head := Head(schema, table);
    assert forall j :: 0 <= j < |schema| ==> head[j] == schema[j];
    assert forall j :: |schema| < j < |head| - 1 ==> head[j] == table[j - |schema| - 1];
  }

  /** A match of the text that begins the text, with a '%' in it, stretches to another table's. */
  lemma StretchedMatch(schema: string, table: string, n: nat) returns (schema': string, table': string)
    requires '.' !in schema && '.' !in table && n <= |Head(schema, table)|
    requires Like(Head(schema, table)[..n], Head(schema, table)) && HasPercent(Head(schema, table))
    ensures '.' !in schema' && '.' !in table' && (schema' != schema || table' != table)
    ensures Like(Head(schema', table'), Head(schema, table) + "%")
  {
    var head := Head(schema, table);
    var i := RoomForOne(head[..n], head, 'x');
    var stretched := head[..n][..i] + ['x'] + head[..n][i..];
    EndsBeforeDot(schema, table, head[..n], i);
    schema', table' := OtherHead(schema, table, i);
    LikeJoin(stretched, head[n..], head);
    assert stretched + head[n..] == head[..i] + "x" + head[i..];
  }

  lemma EndsBeforeDot(schema: string, table: string, u: string, i: nat)
    requires i <= |u| && Like(u[..i] + ['x'] + u[i..], Head(schema, table))
    ensures i < |u|
  {
    assert Head(schema, table) == (schema + "." + table) + ".";
    EndsInDot(u[..i] + ['x'] + u[i..], schema + "." + table);
  }

  /** A match that is shorter than the text ends at the first dot, and any table of the schema matches too. */
  lemma ShortMatch(schema: string, table: string, n: nat)
    requires '.' !in schema && '.' !in table && n < |Head(schema, table)|
    requires Like(Head(schema, table)[..n], Head(schema, table))
    ensures Like(Head(schema, table + "x"), Head(schema, table) + "%")
  {
    var head := Head(schema, table);
    var u := head[..n];
    assert head == (schema + "." + table) + ".";
    EndsInDot(u, schema + "." + table);
    assert head[n - 1] == '.';
    DotsOfHead(schema, table, n - 1);
    assert u == schema + ".";
    LikeJoin(u, table + "x" + ".", head);
    assert u + (table + "x" + ".") == Head(schema, table + "x");
  }

  /** A bracket in a name either loses the table's own index or lets another table's in. */
  lemma BracketStrangers(schema: string, table: string) returns (schema': string, table': string)
    requires '.' !in schema && '.' !in table && ('[' in schema || '[' in table)
    requires Like(Head(schema, table), Head(schema, table) + "%")
    ensures '.' !in schema' && '.' !in table' && (schema' != schema || table' != table)
    ensures Like(Head(schema', table'), Head(schema, table) + "%")
  {
    var head := Head(schema, table);
    var n := LikeSplit(head, head);
    if HasPercent(head) {
      schema', table' := StretchedMatch(schema, table, n);
    } else {
      MatchIsShort(head[..n], head);
      BracketInHead(schema, table);
      ShortMatch(schema, table, n);
      schema', table' := schema, table + "x";
      assert |table'| != |table|;
    }
  }

  lemma BracketInHead(schema: string, table: string)
    requires '[' in schema || '[' in table
    ensures '[' in Head(schema, table)
  {
    if i :| 0 <= i < |schema| && schema[i] == '[' { assert Head(schema, table)[i] == '['; }
    if i :| 0 <= i < |table| && table[i] == '[' { assert Head(schema, table)[|schema| + 1 + i] == '['; }
  }

  // ---------- Exactly when ----------

  /** Among dot-free names, the table's own findings join and no others do. */
  ghost predicate JoinsItsOwn(schema: string, table: string) {
    forall schema', table', index' :: '.' !in schema' && '.' !in table' ==>
      (Joins(ObjectName(schema', table', index'), schema, table) <==> schema' == schema && table' == table)
  }

  lemma JoinBreaks(schema: string, table: string) returns (schema': string, table': string, index': Option<string>)
    requires !Plain(schema) || !Plain(table)
    ensures '.' !in schema' && '.' !in table'
    ensures Joins(ObjectName(schema', table', index'), schema, table) <==> schema' != schema || table' != table
  {
    if '.' in schema || '.' in table || ('[' !in schema && '[' !in table) {
      schema', table', index' := StrangerJoins(schema, table);
    } else {
      var head := Head(schema, table);
      index' := Some("");
      if Like(head, head + "%") {
        schema', table' := BracketStrangers(schema, table);
        UnusedIndexName(schema', table', "");
        assert Head(schema', table') + "" == Head(schema', table');
      } else {
        schema', table' := schema, table;
        UnusedIndexName(schema, table, "");
        assert head + "" == head;
      }
    }
  }

  /** The join is right for a table if and only if neither its name nor its schema's holds a wildcard, '[' or a dot. */
  lemma JoinIsExact(schema: string, table: string)
    ensures JoinsItsOwn(schema, table) <==> Plain(schema) && Plain(table)
  {
    if Plain(schema) && Plain(table) {
      forall schema', table', index' | '.' !in schema' && '.' !in table'
        ensures Joins(ObjectName(schema', table', index'), schema, table) <==> schema' == schema && table' == table
      {
        PlainNamesJoinTheirOwn(schema, table, schema', table', index');
      }
    } else {
      var schema', table', index' := JoinBreaks(schema, table);
    }
  }

  /** Why strangers are taken dot-free: a longer dotted name reads as an index of the shorter one. */
  lemma DottedStrangersJoin(schema: string, table: string, more: string)
    ensures ObjectName(schema, table + "." + more, None) == ObjectName(schema, table, Some(more))
    ensures '[' !in schema && '[' !in table ==> Joins(ObjectName(schema, table + "." + more, None), schema, table)
  {
    OwnFindingsJoin(schema, table);
    assert ObjectName(schema, table + "." + more, None) == ObjectName(schema, table, Some(more));
  }
}
