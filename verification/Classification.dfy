/** Workload categories: the LIKE patterns of dim_workload_class and the view's first match by priority. */
module Classification {
  import opened Common
  import opened Patterns

  datatype Class = Class(priority: int, pattern: string, category: string)

  const UNKNOWN := "Unknown"

  /** A NULL program name is LIKE nothing. */
  predicate Matches(c: Class, program: Option<string>) {
    program.Some? && Like(program.value, c.pattern)
  }

  /** What TOP (1) ... ORDER BY priority over the unordered class table may return, ISNULL included. */
  ghost predicate Picks(classes: set<Class>, program: Option<string>, category: string) {
    if exists c :: c in classes && Matches(c, program)
    then exists c :: c in classes && Matches(c, program) && category == c.category
                     && forall d :: d in classes && Matches(d, program) ==> c.priority <= d.priority
    else category == UNKNOWN
  }

  /** The first match along a list of classes. */
  function FirstMatch(classes: seq<Class>, program: Option<string>): string {
    if classes == [] then UNKNOWN
    else if Matches(classes[0], program) then classes[0].category
    else FirstMatch(classes[1..], program)
  }

  /** Priorities strictly ascending. */
  ghost predicate Ascending(classes: seq<Class>) {
    classes == [] ||
    (Ascending(classes[1..]) && forall d :: d in classes[1..] ==> classes[0].priority < d.priority)
  }

  /**
   With distinct priorities the view's choice is determined: every program name, NULL included, gets exactly one
   category, the one a scan in ascending order of priority meets first.
   */
  lemma {:induction false} ScanPicks(classes: seq<Class>, program: Option<string>, category: string)
    requires Ascending(classes)
    ensures Picks((set c | c in classes), program, category) <==> category == FirstMatch(classes, program)
  {
    var all := set c | c in classes;
    if classes != [] {
      var first, rest := classes[0], classes[1..];
      assert classes == [first] + rest;
      assert all == {first} + set c | c in rest;
      if Matches(first, program) {
        assert first in all;
        assert forall c :: c in all && Matches(c, program) && c.priority <= first.priority ==> c == first;
      } else {
        ScanPicks(rest, program, category);
        assert forall c :: c in all && Matches(c, program) <==> c in (set d | d in rest) && Matches(c, program);
      }
    }
  }

  /** The two forms of the seeded patterns: '%text%' and 'text%'. */
  function Anywhere(text: string): string {
    "%" + (text + "%")
  }

  function AtTheStart(text: string): string {
    text + "%"
  }

  /** The seeded classes, in priority order. */
  function SeedAt(i: nat): Class
    requires i < 16
  {
    match i
    case 0 => Class(10, Anywhere("Integration Services"), "ETL/SSIS")
    case 1 => Class(11, AtTheStart("SSIS-"), "ETL/SSIS")
    case 2 => Class(20, Anywhere("Tableau"), "BI/Tableau")
    case 3 => Class(21, Anywhere("Power BI"), "BI/Power BI")
    case 4 => Class(22, Anywhere("MSOLAP"), "BI/Analysis Services")
    case 5 => Class(30, Anywhere("Report Server"), "Reporting/SSRS")
    case 6 => Class(31, Anywhere("ReportingServices"), "Reporting/SSRS")
    case 7 => Class(40, Anywhere("Azure Data Factory"), "ETL/ADF")
    case 8 => Class(41, Anywhere("azure-sql-"), "ETL/ADF")
    case 9 => Class(50, Anywhere("Management Studio"), "Admin/SSMS")
    case 10 => Class(51, AtTheStart("SQLCMD"), "Admin/CLI")
    case 11 => Class(52, Anywhere("azdata"), "Admin/CLI")
    case 12 => Class(60, Anywhere(".Net SqlClient"), "App (generic)")
    case 13 => Class(61, Anywhere("ODBC"), "App/Extract (ODBC)")
    case 14 => Class(62, Anywhere("jdbc"), "App/Extract (JDBC)")
    case _ => Class(999, "%", "Unknown")
  }

  const SEED: seq<Class> := seq(16, i requires 0 <= i < 16 => SeedAt(i))

  lemma {:induction false} AscendingFrom(classes: seq<Class>, i: nat)
    requires i <= |classes|
    requires forall j :: 0 < j < |classes| ==> classes[j - 1].priority < classes[j].priority
    ensures Ascending(classes[i..])
    ensures i < |classes| ==> forall d :: d in classes[i..] ==> classes[i].priority <= d.priority
    decreases |classes| - i
  {
    if i < |classes| {
      AscendingFrom(classes, i + 1);
      assert classes[i..][1..] == classes[i + 1..];
      assert classes[i..] == [classes[i]] + classes[i + 1..];
    }
  }

  lemma SeedIsAscending()
    ensures Ascending(SEED)
  {
    AscendingFrom(SEED, 0);
    assert SEED[0..] == SEED;
  }

  /** The seed matches every name, and the category it gives is a listed one; NULL gets the catch-all's. */
  lemma SeedIsTotal(program: Option<string>)
    ensures program.Some? <==> exists c :: c in SEED && Matches(c, program)
    ensures FirstMatch(SEED, program) in set c | c in SEED :: c.category
    ensures program.None? ==> FirstMatch(SEED, program) == UNKNOWN
  {
    var last := SEED[15];
    assert last in SEED && last.category == UNKNOWN;
    if program.Some? {
      PercentMatchesAll(program.value);
      assert Matches(last, program);
    }
    FirstMatchListed(SEED, program);
  }

  lemma {:induction false} FirstMatchListed(classes: seq<Class>, program: Option<string>)
    ensures FirstMatch(classes, program) == UNKNOWN
         || exists c :: c in classes && Matches(c, program) && c.category == FirstMatch(classes, program)
    ensures program.None? ==> FirstMatch(classes, program) == UNKNOWN
  {
    if classes != [] {
      FirstMatchListed(classes[1..], program);
      assert forall c :: c in classes[1..] ==> c in classes;
      assert classes[0] in classes;
    }
  }

  // ---------- What the seed says ----------

  predicate Contains(s: string, text: string) {
    exists i :: 0 <= i <= |s| && text <= s[i..]
  }

  /** A text that may stand anywhere in the name or only at its start, and the category it decides. */
  datatype Word = Word(text: string, anywhere: bool, category: string)

  predicate Says(w: Word, s: string) {
    if w.anywhere then Contains(s, w.text) else w.text <= s
  }

  predicate Prints(w: Word, c: Class) {
    Literal(w.text) && c.category == w.category
    && c.pattern == if w.anywhere then Anywhere(w.text) else AtTheStart(w.text)
  }

  /** The category of the first word that the name says. */
  function Decided(words: seq<Word>, s: string): string {
    if words == [] then UNKNOWN else if Says(words[0], s) then words[0].category else Decided(words[1..], s)
  }

  lemma WordMatches(w: Word, c: Class, s: string)
    requires Prints(w, c)
    ensures Matches(c, Some(s)) <==> Says(w, s)
  {
    if w.anywhere { LikeContains(s, w.text); } else { LikePrefix(s, w.text); }
  }

  /** Classes that print words, and a catch-all after them, decide by the words. */
  lemma {:induction false} WordsDecide(classes: seq<Class>, words: seq<Word>, s: string)
    requires |classes| == |words| + 1 && forall i :: 0 <= i < |words| ==> Prints(words[i], classes[i])
    requires classes[|words|].pattern == "%" && classes[|words|].category == UNKNOWN
    ensures FirstMatch(classes, Some(s)) == Decided(words, s)
  {
    if words == [] {
      PercentMatchesAll(s);
    } else {
      WordMatches(words[0], classes[0], s);
      WordsDecide(classes[1..], words[1..], s);
    }
  }

  /** What the seed is meant to say, without LIKE. */
  function WordAt(i: nat): Word
    requires i < 15
  {
    match i
    case 0 => Word("Integration Services", true, "ETL/SSIS")
    case 1 => Word("SSIS-", false, "ETL/SSIS")
    case 2 => Word("Tableau", true, "BI/Tableau")
    case 3 => Word("Power BI", true, "BI/Power BI")
    case 4 => Word("MSOLAP", true, "BI/Analysis Services")
    case 5 => Word("Report Server", true, "Reporting/SSRS")
    case 6 => Word("ReportingServices", true, "Reporting/SSRS")
    case 7 => Word("Azure Data Factory", true, "ETL/ADF")
    case 8 => Word("azure-sql-", true, "ETL/ADF")
    case 9 => Word("Management Studio", true, "Admin/SSMS")
    case 10 => Word("SQLCMD", false, "Admin/CLI")
    case 11 => Word("azdata", true, "Admin/CLI")
    case 12 => Word(".Net SqlClient", true, "App (generic)")
    case 13 => Word("ODBC", true, "App/Extract (ODBC)")
    case _ => Word("jdbc", true, "App/Extract (JDBC)")
  }

  const WORDS: seq<Word> := seq(15, i requires 0 <= i < 15 => WordAt(i))

  lemma SamePattern(i: nat)
    requires i < 15
    ensures SeedAt(i).category == WordAt(i).category
    ensures SeedAt(i).pattern == if WordAt(i).anywhere then Anywhere(WordAt(i).text) else AtTheStart(WordAt(i).text)
  {
  }

  lemma Literal0()
    ensures Literal("Integration Services")
  {
  }

  lemma Literal1()
    ensures Literal("SSIS-")
  {
  }

  lemma Literal2()
    ensures Literal("Tableau")
  {
  }

  lemma Literal3()
    ensures Literal("Power BI")
  {
  }

  lemma Literal4()
    ensures Literal("MSOLAP")
  {
  }

  lemma Literal5()
    ensures Literal("Report Server")
  {
  }

  lemma Literal6()
    ensures Literal("ReportingServices")
  {
  }

  lemma Literal7()
    ensures Literal("Azure Data Factory")
  {
  }

  lemma Literal8()
    ensures Literal("azure-sql-")
  {
  }

  lemma Literal9()
    ensures Literal("Management Studio")
  {
  }

  lemma Literal10()
    ensures Literal("SQLCMD")
  {
  }

  lemma Literal11()
    ensures Literal("azdata")
  {
  }

  lemma Literal12()
    ensures Literal(".Net SqlClient")
  {
  }

  lemma Literal13()
    ensures Literal("ODBC")
  {
  }

  lemma Literal14()
    ensures Literal("jdbc")
  {
  }

  lemma SeedPrints(i: nat)
    requires i < 15
    ensures Prints(WordAt(i), SeedAt(i))
  {
    SamePattern(i);
    LiteralWord(i);
  }

  lemma LiteralWord(i: nat)
    requires i < 15
    ensures Literal(WordAt(i).text)
  {
    match i
    case 0 => Literal0();
    case 1 => Literal1();
    case 2 => Literal2();
    case 3 => Literal3();
    case 4 => Literal4();
    case 5 => Literal5();
    case 6 => Literal6();
    case 7 => Literal7();
    case 8 => Literal8();
    case 9 => Literal9();
    case 10 => Literal10();
    case 11 => Literal11();
    case 12 => Literal12();
    case 13 => Literal13();
    case _ => Literal14();
  }

  /** Under the seed, a program name falls into the category that the first word it says decides. */
  lemma SeedSays(s: string)
    ensures FirstMatch(SEED, Some(s)) == Decided(WORDS, s)
  {
    forall i | 0 <= i < 15 ensures Prints(WORDS[i], SEED[i]) {
      SeedPrints(i);
    }
    WordsDecide(SEED, WORDS, s);
  }
}
