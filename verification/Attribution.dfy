/**
 The attribution key of fact_workload: SHA2_256 over the four fields joined by '|', with NULL printed as empty.
 Table keys below hold the joined string itself; `DigestSeparates` says what an injective digest adds.
 */
module Attribution {
  import opened Common

  datatype Who = Who(login: Option<string>, program: Option<string>, host: Option<string>, database: Option<string>)

  /** CONCAT treats NULL as the empty string. */
  function Text(field: Option<string>): string {
    if field.Some? then field.value else ""
  }

  function Fields(w: Who): seq<string> {
    [Text(w.login), Text(w.program), Text(w.host), Text(w.database)]
  }

  function Code(w: Who): string {
    Text(w.login) + "|" + (Text(w.program) + "|" + (Text(w.host) + "|" + Text(w.database)))
  }

  predicate BarFree(w: Who) {
    '|' !in Text(w.login) && '|' !in Text(w.program) && '|' !in Text(w.host) && '|' !in Text(w.database)
  }

  predicate NonNull(w: Who) {
    w.login.Some? && w.program.Some? && w.host.Some? && w.database.Some?
  }

  /** Cut a string at every bar. */
  function Split(s: string): (parts: seq<string>)
    ensures |parts| >= 1
  {
    if s == "" then [""]
    else
      var rest := Split(s[1..]);
      if s[0] == '|' then [""] + rest else [[s[0]] + rest[0]] + rest[1..]
  }

  lemma {:induction false} SplitField(field: string, rest: string)
    requires '|' !in field
    ensures Split(field) == [field]
    ensures Split(field + "|" + rest) == [field] + Split(rest)
  {
    if field == "" {
      assert "" + "|" + rest == "|" + rest;
    } else {
      SplitField(field[1..], rest);
      var whole := field + "|" + rest;
      assert whole[1..] == field[1..] + "|" + rest;
      assert whole[0] == field[0];
      assert field == [field[0]] + field[1..];
    }
  }

  /** Splitting undoes the join when no field holds the separator. */
  lemma SplitUndoesCode(w: Who)
    requires BarFree(w)
    ensures Split(Code(w)) == Fields(w)
    ensures NonNull(w) ==> Split(Code(w)) == [w.login.value, w.program.value, w.host.value, w.database.value]
  {
    var tail := Text(w.host) + "|" + Text(w.database);
    SplitField(Text(w.database), "");
    SplitField(Text(w.host), Text(w.database));
    SplitField(Text(w.program), tail);
    SplitField(Text(w.login), Text(w.program) + "|" + tail);
  }

  /** Two bar-free groups share a key exactly when they agree up to NULL against empty. */
  lemma CodeSeparates(a: Who, b: Who)
    requires BarFree(a) && BarFree(b)
    ensures Code(a) == Code(b) <==> Fields(a) == Fields(b)
    ensures NonNull(a) && NonNull(b) ==> (Code(a) == Code(b) <==> a == b)
  {
    SplitUndoesCode(a);
    SplitUndoesCode(b);
    assert Fields(a) == Fields(b) ==> forall i :: 0 <= i < 4 ==> Fields(a)[i] == Fields(b)[i];
  }

  /** An injective digest neither merges nor separates more than the joined string does. */
  lemma DigestSeparates<D(!new)>(digest: string -> D, a: Who, b: Who)
    requires forall s, t :: digest(s) == digest(t) ==> s == t
    requires BarFree(a) && BarFree(b) && NonNull(a) && NonNull(b)
    ensures digest(Code(a)) == digest(Code(b)) <==> a == b
  {
    CodeSeparates(a, b);
  }

  /** Without bar-freedom, or with NULL beside empty, different groups do collide. */
  lemma CodeCollides()
    ensures exists a, b :: a != b && NonNull(a) && NonNull(b) && Code(a) == Code(b)
    ensures exists a, b :: a != b && BarFree(a) && BarFree(b) && Code(a) == Code(b)
  {
    var x := Who(Some("a|b"), Some("c"), Some("h"), Some("d"));
    var y := Who(Some("a"), Some("b|c"), Some("h"), Some("d"));
    assert Code(x) == "a|b|c|h|d" == Code(y);
    assert x.login.value != y.login.value;
    var z := Who(None, Some("c"), Some("h"), Some("d"));
    var e := Who(Some(""), Some("c"), Some("h"), Some("d"));
    assert Code(z) == Code(e) && BarFree(z) && BarFree(e);
  }
}
