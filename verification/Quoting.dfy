/**
 Names printed into SQL text: '[name]' with ']' doubled, and 'literal' with the quote doubled, against the
 reader that undoes it. With it, the per-database loop of base.py reads each database under its own name.
 */
module Quoting {
  import opened Common

  /** str.replace(c, c + c). */
  function Doubled(s: string, c: char): string {
    if s == "" then ""
    else (if s[0] == c then [c, c] else [s[0]]) + Doubled(s[1..], c)
  }

  /** Read up to the closing delimiter, taking two in a row as one literal; None if the text ends first. */
  function ReadDelimited(text: string, close: char): Option<(string, string)> {
    if text == "" then None
    else if text[0] != close then Prepend(text[0], ReadDelimited(text[1..], close))
    else if |text| > 1 && text[1] == close then Prepend(close, ReadDelimited(text[2..], close))
    else Some(("", text[1..]))
  }

  function Prepend(c: char, r: Option<(string, string)>): Option<(string, string)> {
    if r.Some? then Some(([c] + r.value.0, r.value.1)) else None
  }

  /** Whatever the name contains, the reader recovers it and the rest of the batch. */
  lemma {:induction false} ReadUndoesDoubling(s: string, close: char, rest: string)
    requires rest == "" || rest[0] != close
    ensures ReadDelimited(Doubled(s, close) + [close] + rest, close) == Some((s, rest))
  {
    var text := Doubled(s, close) + [close] + rest;
    if s == "" {
      assert text == [close] + rest;
      assert text[1..] == rest;
    } else {
      ReadUndoesDoubling(s[1..], close, rest);
      var tail := Doubled(s[1..], close) + [close] + rest;
      assert s == [s[0]] + s[1..];
      if s[0] == close {
        assert text == [close, close] + tail;
        assert text[2..] == tail;
      } else {
        assert text == [s[0]] + tail;
        assert text[1..] == tail;
      }
    }
  }

  /** Without the doubling the reader comes back with another name as soon as the name contains the delimiter. */
  lemma {:induction false} DoublingIsNeeded(s: string, close: char, rest: string)
    requires rest == "" || rest[0] != close
    ensures ReadDelimited(s + [close] + rest, close) == Some((s, rest)) <==> close !in s
  {
    var text := s + [close] + rest;
    if s == "" {
      assert text == [close] + rest;
      assert text[1..] == rest;
    } else {
      DoublingIsNeeded(s[1..], close, rest);
      var tail := s[1..] + [close] + rest;
      assert text == [s[0]] + tail;
      assert text[1..] == tail;
      assert s == [s[0]] + s[1..];
      if s[0] == close {
        ReadLength(text[2..], close);
      }
    }
  }

  lemma {:induction false} ReadLength(text: string, close: char)
    ensures var r := ReadDelimited(text, close); r.Some? ==> |r.value.0| + 1 + |r.value.1| <= |text|
  {
    if text != "" {
      ReadLength(text[1..], close);
      if |text| > 1 { ReadLength(text[2..], close); }
    }
  }

  // ---------- The two places that print names ----------

  const USE_HEAD := "USE ["
  const FILE_HEAD := "SELECT event_data FROM sys.fn_xe_file_target_read_file(N'"
  const FILE_TAIL := ", NULL, NULL, NULL);"

  /** PerDatabaseCollector.fetch_rows: switch database, then run the query. */
  function UseBatch(database: string, query: string): string {
    USE_HEAD + (Doubled(database, ']') + [']'] + (";\n" + query))
  }

  /** WorkloadCollector.source_query. */
  function FileQuery(glob: string): string {
    FILE_HEAD + (Doubled(glob, '\'') + ['\''] + FILE_TAIL)
  }

  function AfterHead(head: string, text: string, close: char): Option<(string, string)> {
    if head <= text then ReadDelimited(text[|head|..], close) else None
  }

  lemma {:induction false} NothingToDouble(s: string, c: char)
    requires c !in s
    ensures Doubled(s, c) == s
  {
    if s != "" { NothingToDouble(s[1..], c); }
  }

  /** A name without a bracket is printed as it is. */
  lemma UseBatchPrinted(database: string, query: string)
    ensures "USE [" <= UseBatch(database, query)
    ensures ']' !in database ==> UseBatch(database, query) == "USE [" + database + "];\n" + query
  {
    if ']' !in database {
      NothingToDouble(database, ']');
      assert [']'] + (";\n" + query) == "];\n" + query;
    }
  }

  /** A glob without a quote is printed as it is. */
  lemma FileQueryPrinted(glob: string)
    requires '\'' !in glob
    ensures FileQuery(glob)
         == "SELECT event_data FROM sys.fn_xe_file_target_read_file(N'" + glob + "'" + ", NULL, NULL, NULL);"
  {
    NothingToDouble(glob, '\'');
  }

  lemma UseBatchReads(database: string, query: string)
    ensures AfterHead(USE_HEAD, UseBatch(database, query), ']') == Some((database, ";\n" + query))
  {
    ReadUndoesDoubling(database, ']', ";\n" + query);
    AfterHeadReads(USE_HEAD, Doubled(database, ']') + [']'] + (";\n" + query), ']');
  }

  lemma FileQueryReads(glob: string)
    ensures AfterHead(FILE_HEAD, FileQuery(glob), '\'') == Some((glob, FILE_TAIL))
  {
    ReadUndoesDoubling(glob, '\'', FILE_TAIL);
    AfterHeadReads(FILE_HEAD, Doubled(glob, '\'') + ['\''] + FILE_TAIL, '\'');
  }

  lemma AfterHeadReads(head: string, text: string, close: char)
    ensures AfterHead(head, head + text, close) == ReadDelimited(text, close)
  {
    assert (head + text)[|head|..] == text;
  }

  // ---------- Reading several databases ----------

  datatype Tagged<R> = Tagged(database: string, row: R)

  /** The monitored server as a batch meets it: what the query returns in each database that can be used. */
  type Databases<R> = map<string, seq<R>>

  /** The server reads the name back out of the batch; using a database it does not have is an error. */
  function RunBatch<R>(server: Databases<R>, batch: string): Option<seq<R>> {
    var target := AfterHead(USE_HEAD, batch, ']');
    if target.Some? && target.value.0 in server then Some(server[target.value.0]) else None
  }

  function Tag<R>(database: string, rows: seq<R>): seq<Tagged<R>> {
    seq(|rows|, i requires 0 <= i < |rows| => Tagged(database, rows[i]))
  }

  /** Each listed database's own rows under its own name, in list order. */
  function AllTagged<R>(server: Databases<R>, names: seq<string>): seq<Tagged<R>>
    requires forall n :: n in names ==> n in server
  {
    if names == [] then []
    else AllTagged(server, names[..|names| - 1]) + Tag(names[|names| - 1], server[names[|names| - 1]])
  }

  function RowCount<R>(server: Databases<R>, names: seq<string>): nat
    requires forall n :: n in names ==> n in server
  {
    if names == [] then 0 else RowCount(server, names[..|names| - 1]) + |server[names[|names| - 1]]|
  }

  /** The fetched rows are those of the listed databases, each under the name of the database it was read from. */
  lemma {:induction false} AllTaggedMembers<R>(server: Databases<R>, names: seq<string>, n: string, r: R)
    requires forall n :: n in names ==> n in server
    ensures Tagged(n, r) in AllTagged(server, names) <==> n in names && r in server[n]
  {
    if names != [] {
      var front, last := names[..|names| - 1], names[|names| - 1];
      assert names == front + [last];
      AllTaggedMembers(server, front, n, r);
      var tagged := Tag(last, server[last]);
      if n == last && r in server[last] {
        var j :| 0 <= j < |server[last]| && server[last][j] == r;
        assert tagged[j] == Tagged(n, r);
      }
    }
  }

  /** Each of them in its place: after all rows of the databases listed before. */
  lemma {:induction false} AllTaggedAt<R>(server: Databases<R>, names: seq<string>, i: nat, j: nat)
    requires forall n :: n in names ==> n in server
    requires i < |names| && j < |server[names[i]]|
    ensures |AllTagged(server, names)| == RowCount(server, names)
    ensures RowCount(server, names[..i]) + j < RowCount(server, names)
    ensures AllTagged(server, names)[RowCount(server, names[..i]) + j] == Tagged(names[i], server[names[i]][j])
  {
    var n := |names| - 1;
    AllTaggedLength(server, names);
    AllTaggedLength(server, names[..n]);
    if i < n {
      AllTaggedAt(server, names[..n], i, j);
      assert names[..n][..i] == names[..i];
    }
  }

  lemma {:induction false} AllTaggedLength<R>(server: Databases<R>, names: seq<string>)
    requires forall n :: n in names ==> n in server
    ensures |AllTagged(server, names)| == RowCount(server, names)
  {
    if names != [] { AllTaggedLength(server, names[..|names| - 1]); }
  }

  /** fetch_rows: all of the listed databases, or an exception at the first one that cannot be used. */
  method FetchRows<R>(server: Databases<R>, names: seq<string>, query: string) returns (rows: Option<seq<Tagged<R>>>)
    ensures rows.Some? <==> forall n :: n in names ==> n in server
    ensures rows.Some? ==> rows.value == AllTagged(server, names)
  {
    var all := [];
    for i := 0 to |names|
      invariant forall n :: n in names[..i] ==> n in server
      invariant all == AllTagged(server, names[..i])
    {
      var name := names[i];
      var answer := RunBatch(server, UseBatch(name, query));
      UseBatchReads(name, query);
      assert name in names;
      if answer.None? {
        return None;
      }
      assert names[..i + 1] == names[..i] + [name];
      assert names[..i + 1][..i] == names[..i];
      all := all + Tag(name, answer.value);
    }
    assert names[..|names|] == names;
    rows := Some(all);
  }
}
