/**
 * Rewriting a whole escaped function call into the coordinator's SQL.
 *
 * The emitted text is a template with arguments pasted into it. Each rewrite
 * is given as its parts, so that it can be said where an argument ends and
 * what the lexer makes of the text right after it.
 */
module ScalarFn {
  import opened Wrappers
  import opened Text
  import opened EscapeLexer
  import opened EscapeArguments
  import opened Truncation
  import opened Temporal

  function UpperChar(c: char): char {
    if 'a' <= c <= 'z' then (c as int - 32) as char else c
  }

  function Upper(s: string): string {
    seq(|s|, i requires 0 <= i < |s| => UpperChar(s[i]))
  }

  /** An argument and the template text before it. */
  datatype Slot = Slot(before: string, arg: string)

  /** The slots of an emitted text, and the template text after the last. */
  datatype Output = Output(slots: seq<Slot>, tail: string)

  function SlotsText(slots: seq<Slot>): string {
    if slots == [] then []
    else SlotsText(slots[..|slots| - 1]) + (slots[|slots| - 1].before + slots[|slots| - 1].arg)
  }

  function Emitted(out: Output): string {
    SlotsText(out.slots) + out.tail
  }

  function IntervalUnit(keyword: string): Option<string> {
    match Upper(Trim(keyword))
    case "SQL_TSI_SECOND" => Some("second")
    case "SQL_TSI_MINUTE" => Some("minute")
    case "SQL_TSI_HOUR" => Some("hour")
    case "SQL_TSI_DAY" => Some("day")
    case "SQL_TSI_WEEK" => Some("week")
    case "SQL_TSI_MONTH" => Some("month")
    case "SQL_TSI_QUARTER" => Some("quarter")
    case "SQL_TSI_YEAR" => Some("year")
    case _ => None
  }

  function ConvertTarget(keyword: string): Option<string> {
    match Upper(Trim(keyword))
    case "SQL_BIGINT" => Some("BIGINT")
    case "SQL_INTEGER" => Some("INTEGER")
    case "SQL_SMALLINT" => Some("SMALLINT")
    case "SQL_TINYINT" => Some("TINYINT")
    case "SQL_DOUBLE" | "SQL_FLOAT" => Some("DOUBLE")
    case "SQL_REAL" => Some("REAL")
    case "SQL_DECIMAL" | "SQL_NUMERIC" => Some("DECIMAL")
    case "SQL_BIT" => Some("BOOLEAN")
    case "SQL_CHAR" | "SQL_VARCHAR" | "SQL_LONGVARCHAR" | "SQL_WCHAR" | "SQL_WVARCHAR"
       | "SQL_WLONGVARCHAR" => Some("VARCHAR")
    case "SQL_BINARY" | "SQL_VARBINARY" | "SQL_LONGVARBINARY" => Some("VARBINARY")
    case "SQL_DATE" | "SQL_TYPE_DATE" => Some("DATE")
    case "SQL_TIME" | "SQL_TYPE_TIME" => Some("TIME")
    case "SQL_TIMESTAMP" | "SQL_TYPE_TIMESTAMP" => Some("TIMESTAMP")
    case "SQL_GUID" => Some("UUID")
    case _ => None
  }

  function RewriteTruncate(value: string, digits: string): Output {
    match FormOf(digits)
    case Whole => Output([Slot("truncate(", value)], ")")
    case Up(s) => Output([Slot("(truncate(", value)], " * " + Show(s) + ") / " + Show(s) + ")")
    case Down(s) => Output([Slot("(truncate(", value)], " / " + Show(s) + ") * " + Show(s) + ")")
    case Power =>
      Output([Slot("(truncate(", value), Slot(" * power(10, ", digits), Slot(")) / power(10, ", digits)], "))")
  }

  /** The rewrite, from the upper-case name, the trimmed pieces, and whether there is any text. */
  function RewriteParts(name: string, blank: bool, parts: seq<string>): Option<Output> {
    var n := |parts|;
    match name
    case "LOCATE" =>
      if n == 2 then Some(Output([Slot("position(", parts[0]), Slot(" IN ", parts[1])], ")")) else None
    case "LENGTH" => if n == 1 then Some(Output([Slot("length(rtrim(", parts[0])], ", ' '))")) else None
    case "LTRIM" => if n == 1 then Some(Output([Slot("ltrim(", parts[0])], ", ' ')")) else None
    case "RTRIM" => if n == 1 then Some(Output([Slot("rtrim(", parts[0])], ", ' ')")) else None
    case "CURDATE" | "CURRENT_DATE" => if blank then Some(Output([], "current_date")) else None
    case "CURTIME" | "CURRENT_TIME" => if blank then Some(Output([], "current_time")) else None
    case "CURRENT_TIMESTAMP" => if blank then Some(Output([], "current_timestamp")) else None
    case "USERNAME" => if blank then Some(Output([], "current_user")) else None
    case "DBNAME" => if blank then Some(Output([], "current_catalog")) else None
    case "TIMESTAMPADD" => if n == 3 then Dated("date_add('", parts) else None
    case "TIMESTAMPDIFF" => if n == 3 then Dated("date_diff('", parts) else None
    case "CONVERT" =>
      if n != 2 then None
      else (match ConvertTarget(parts[1])
            case None => None
            case Some(target) => Some(Output([Slot("CAST(", parts[0])], " AS " + target + ")")))
    case "RAND" => if n == 1 && !blank then Some(Output([], "random()")) else None
    case "TRUNCATE" => if n == 2 then Some(RewriteTruncate(parts[0], parts[1])) else None
    case "DAYOFWEEK" => if n == 1 then Some(Output([Slot("((day_of_week(", parts[0])], ") % 7) + 1)")) else None
    case _ => None
  }

  function Dated(call: string, parts: seq<string>): Option<Output>
    requires |parts| == 3
  {
    match IntervalUnit(parts[0])
    case None => None
    case Some(unit) => Some(Output([Slot(call + unit + "', ", parts[1]), Slot(", ", parts[2])], ")"))
  }

  /** `None` leaves the call to a plain renaming, or as it stands. */
  function Rewrite(name: string, args: string): Option<Output> {
    RewriteParts(Upper(name), Trim(args) == [], Trimmed(Cut(args)))
  }

  method RewriteScalarFn(name: string, args: string) returns (text: Option<string>)
    ensures text == match Rewrite(name, args) case None => None case Some(out) => Some(Emitted(out))
  {
    var parts := SplitArgs(args);
    match RewriteParts(Upper(name), Trim(args) == [], parts)
    case None => text := None;
    case Some(out) => text := Some(Emitted(out));
  }

  // ----- templates

  /** Template text that reads the same after any whole argument. */
  predicate Starts(lit: string) {
    lit != [] && lit[0] != '-' && lit[0] != '*'
  }

  /** The lexer in plain code at a depth. */
  function At(depth: nat): Lex {
    Lex(Code, depth, false)
  }

  /** Reading `lit` leads from plain code at one depth to plain code at another, cutting nothing. */
  predicate Leads(from: nat, lit: string, to: nat) {
    Run(At(from), lit) == At(to) && NoCut(At(from), lit)
  }

  /** A template whose arguments stand at the given depths, all inside parentheses. */
  ghost predicate Template(out: Output, depths: seq<nat>) {
    && |depths| == |out.slots|
    && (forall k :: 0 <= k < |depths| ==>
          && Starts(out.slots[k].before) && depths[k] >= 1
          && Leads(if k == 0 then 0 else depths[k - 1], out.slots[k].before, depths[k]))
    && Leads(if depths == [] then 0 else depths[|depths| - 1], out.tail, 0)
    && Starts(out.tail)
  }

  /** A trimmed piece of closed text: whole, or left inside a line comment. */
  predicate Piece(p: string) {
    OneArg(p) || (EndsInLineComment(p) && !Run(START, p).under)
  }

  lemma TrimmedPiece(p: string)
    requires OneArg(p)
    ensures Piece(Trim(p))
  {
    TrimmedIsWholeIff(p);
    var before, after := TrimParts(p);
    RunConcat(START, before + Trim(p), after);
    RunConcat(START, before, Trim(p));
    assert AllSpace(before) by {
      assert forall c :: c in before ==> c in before + after;
    }
    SpaceRun(START, before);
    if Run(START, Trim(p)).under {
      UnderStays(Run(START, Trim(p)), after);
    }
  }

  /** A literal reads the same from any code mode, when its first character decides nothing. */
  lemma FromCode(s: Lex, lit: string)
    requires s.mode.IsCode() && Starts(lit)
    ensures Run(s, lit) == Run(s.(mode := Code), lit)
    ensures NoCut(s, lit) <==> NoCut(s.(mode := Code), lit)
  {
    assert LexStep(s, lit[0]) == LexStep(s.(mode := Code), lit[0]);
  }

  /** A piece pasted at depth `d` ends in code there, or in its own comment. */
  lemma PieceAt(p: string, d: nat)
    requires Piece(p) && d >= 1
    ensures NoCut(At(d), p)
    ensures OneArg(p) ==> Run(At(d), p).mode.IsCode() && Run(At(d), p).depth == d && !Run(At(d), p).under
    ensures EndsInLineComment(p) ==> Run(At(d), p).mode.Line?
  {
    assert START.(depth := START.depth + d) == At(d);
    RunDeeper(START, p, d);
  }

  /** Where the lexer stands after the first `k` slots, if their arguments are whole. */
  lemma {:induction false} AfterSlots(out: Output, depths: seq<nat>, k: nat)
    requires Template(out, depths) && k <= |depths|
    requires forall j :: 0 <= j < k ==> OneArg(out.slots[j].arg)
    ensures var s := Run(START, SlotsText(out.slots[..k]));
            && s.mode.IsCode() && !s.under
            && s.depth == (if k == 0 then 0 else depths[k - 1])
            && (k == 0 ==> s == START)
    ensures NoCut(START, SlotsText(out.slots[..k]))
  {
    if k > 0 {
      AfterSlots(out, depths, k - 1);
      SlotStep(out, depths, k - 1);
    }
  }

  /** One more slot, read after whole arguments. */
  lemma SlotStep(out: Output, depths: seq<nat>, k: nat)
    requires Template(out, depths) && k < |depths| && Piece(out.slots[k].arg)
    requires var s := Run(START, SlotsText(out.slots[..k]));
             s.mode.IsCode() && !s.under && s.depth == (if k == 0 then 0 else depths[k - 1])
    requires NoCut(START, SlotsText(out.slots[..k]))
    ensures var s := Run(START, SlotsText(out.slots[..k + 1]));
            && (OneArg(out.slots[k].arg) ==> s.mode.IsCode() && !s.under && s.depth == depths[k])
            && (EndsInLineComment(out.slots[k].arg) ==> s.mode.Line?)
    ensures NoCut(START, SlotsText(out.slots[..k + 1]))
  {
    var text, slot := SlotsText(out.slots[..k]), out.slots[k];
    var s := Run(START, text);
    assert out.slots[..k + 1][..k] == out.slots[..k];
    assert SlotsText(out.slots[..k + 1]) == text + (slot.before + slot.arg);
    RunConcat(START, text, slot.before + slot.arg);
    RunConcat(s, slot.before, slot.arg);
    FromCode(s, slot.before);
    assert s.(mode := Code) == At(s.depth);
    PieceAt(slot.arg, depths[k]);
  }

  /** The text right after every argument is read as code, and the whole is one closed argument. */
  ghost predicate Intact(out: Output) {
    && OneArg(Emitted(out))
    && forall k :: 0 < k <= |out.slots| ==> Run(START, SlotsText(out.slots[..k])).mode.IsCode()
  }

  lemma WholeArgumentsMakeIntact(out: Output, depths: seq<nat>)
    requires Template(out, depths)
    requires forall k :: 0 <= k < |out.slots| ==> OneArg(out.slots[k].arg)
    ensures Intact(out)
  {
    forall k | 0 < k <= |out.slots|
      ensures Run(START, SlotsText(out.slots[..k])).mode.IsCode()
    {
      AfterSlots(out, depths, k);
    }
    var n := |out.slots|;
    AfterSlots(out, depths, n);
    assert out.slots[..n] == out.slots;
    var s := Run(START, SlotsText(out.slots));
    RunConcat(START, SlotsText(out.slots), out.tail);
    FromCode(s, out.tail);
    assert s.(mode := Code) == At(s.depth);
  }

  lemma CommentMakesNotIntact(out: Output, depths: seq<nat>, k: nat)
    requires Template(out, depths) && k < |out.slots|
    requires EndsInLineComment(out.slots[k].arg) && Piece(out.slots[k].arg)
    requires forall j :: 0 <= j < k ==> OneArg(out.slots[j].arg)
    ensures !Intact(out)
  {
    AfterSlots(out, depths, k);
    SlotStep(out, depths, k);
  }

  /** The first slot whose argument ends in a line comment, if any does. */
  lemma FirstComment(out: Output) returns (k: nat)
    requires exists j :: 0 <= j < |out.slots| && EndsInLineComment(out.slots[j].arg)
    ensures k < |out.slots| && EndsInLineComment(out.slots[k].arg)
    ensures forall j :: 0 <= j < k ==> !EndsInLineComment(out.slots[j].arg)
  {
    k := 0;
    while !EndsInLineComment(out.slots[k].arg)
      invariant k < |out.slots|
      invariant forall j :: 0 <= j < k ==> !EndsInLineComment(out.slots[j].arg)
      decreases |out.slots| - k
    {
      var j :| 0 <= j < |out.slots| && EndsInLineComment(out.slots[j].arg);
      assert k < j;
      k := k + 1;
    }
  }

  // ----- every rewrite is such a template

  lemma LeadsTwice(a: nat, x: string, b: nat, y: string, c: nat)
    requires Leads(a, x, b) && Leads(b, y, c)
    ensures Leads(a, x + y, c)
  {
    RunConcat(At(a), x, y);
  }

  lemma {:induction false} DigitsLead(d: nat, s: string)
    requires AllDigits(s)
    ensures Leads(d, s, d)
    decreases |s|
  {
    if s != [] {
      assert LexStep(At(d), s[0]) == At(d);
      DigitsLead(d, s[1..]);
    }
  }

  predicate IsNameChar(c: char) {
    'A' <= c <= 'Z' || 'a' <= c <= 'z' || c == '_' || c == ' '
  }

  lemma {:induction false} WordLeads(d: nat, s: string)
    requires forall i :: 0 <= i < |s| ==> IsNameChar(s[i])
    ensures Leads(d, s, d)
    decreases |s|
  {
    if s != [] {
      assert LexStep(At(d), s[0]) == At(d);
      WordLeads(d, s[1..]);
    }
  }

  /** Inside a literal a word changes nothing. */
  lemma {:induction false} WordInLiteral(s: Lex, w: string)
    requires s.mode.Single? && forall i :: 0 <= i < |w| ==> IsNameChar(w[i])
    ensures Run(s, w) == s && NoCut(s, w)
    decreases |w|
  {
    if w != [] {
      assert LexStep(s, w[0]) == s;
      WordInLiteral(s, w[1..]);
    }
  }

  lemma UnitIsWord(keyword: string)
    requires IntervalUnit(keyword).Some?
    ensures var w := IntervalUnit(keyword).value; forall i :: 0 <= i < |w| ==> IsNameChar(w[i])
  {
  }

  lemma TargetIsWord(keyword: string)
    requires ConvertTarget(keyword).Some?
    ensures var w := ConvertTarget(keyword).value; forall i :: 0 <= i < |w| ==> IsNameChar(w[i])
  {
  }

  /** A name and an opening parenthesis lead one level in; a closing one leads out. */
  lemma CallLeads(d: nat, w: string)
    requires forall i :: 0 <= i < |w| ==> IsNameChar(w[i])
    ensures Leads(d, w + "(", d + 1)
  {
    WordLeads(d, w);
    RunOne(At(d), '(');
    LeadsTwice(d, w, d, "(", d + 1);
  }

  /** `date_add('unit', ` leads one level in. */
  lemma DatedLeads(call: string, unit: string)
    requires call == "date_add('" || call == "date_diff('"
    requires forall i :: 0 <= i < |unit| ==> IsNameChar(unit[i])
    ensures Leads(0, call + unit + "', ", 1) && Starts(call + unit + "', ")
  {
    hide Run, NoCut;
    var inside := Lex(Single, 1, false);
    LiteralOpens("date_add");
    LiteralOpens("date_diff");
    assert "date_add" + "(" + "'" == "date_add('" && "date_diff" + "(" + "'" == "date_diff('";
    UnitCloses();
    RunConcat(At(0), call, unit);
    WordInLiteral(inside, unit);
    RunConcat(At(0), call + unit, "', ");
  }

  /** `word('` leads into a literal one level in. */
  lemma LiteralOpens(word: string)
    requires forall i :: 0 <= i < |word| ==> IsNameChar(word[i])
    ensures var call := word + "(" + "'"; Run(At(0), call) == Lex(Single, 1, false) && NoCut(At(0), call)
  {
    hide Run, NoCut;
    CallLeads(0, word);
    RunOne(At(1), '\'');
    RunConcat(At(0), word + "(", "'");
  }

  lemma UnitCloses()
    ensures Run(Lex(Single, 1, false), "', ") == At(1) && NoCut(Lex(Single, 1, false), "', ")
  {
  }

  lemma ScaleLeads()
    ensures Leads(2, " * ", 2) && Leads(2, " / ", 2)
    ensures Leads(2, ") / ", 1) && Leads(2, ") * ", 1) && Leads(1, ")", 0)
  {
  }

  lemma ScaledTails(n: nat)
    ensures Leads(2, " * " + Show(n) + ") / " + Show(n) + ")", 0)
    ensures Leads(2, " / " + Show(n) + ") * " + Show(n) + ")", 0)
  {
    hide Leads, Show;
    var d := Show(n);
    DigitsLead(2, d);
    DigitsLead(1, d);
    ScaleLeads();
    LeadsTwice(2, " * ", 2, d, 2);
    LeadsTwice(2, " * " + d, 2, ") / ", 1);
    LeadsTwice(2, " * " + d + ") / ", 1, d, 1);
    LeadsTwice(2, " * " + d + ") / " + d, 1, ")", 0);
    LeadsTwice(2, " / ", 2, d, 2);
    LeadsTwice(2, " / " + d, 2, ") * ", 1);
    LeadsTwice(2, " / " + d + ") * ", 1, d, 1);
    LeadsTwice(2, " / " + d + ") * " + d, 1, ")", 0);
  }

  lemma TruncateLeads()
    ensures Leads(0, "truncate(", 1) && Leads(1, ")", 0) && Leads(0, "(truncate(", 2)
  {
    hide Leads;
    assert "truncate" + "(" == "truncate(" && [] + "(" == "(" && "(" + "truncate(" == "(truncate(";
    CallLeads(0, "truncate");
    CallLeads(0, []);
    CallLeads(1, "truncate");
    LeadsTwice(0, "(", 1, "truncate(", 2);
    ScaleLeads();
  }

  lemma CountLeads()
    ensures Leads(3, "10, ", 3) && Leads(2, "10, ", 2) && Leads(3, "))", 1) && Leads(2, "))", 0) && Leads(1, " / ", 1)
  {
  }

  lemma PowerLeads()
    ensures Leads(2, " * power(10, ", 3) && Leads(3, ")) / power(10, ", 2) && Leads(2, "))", 0)
  {
    hide Leads;
    ScaleLeads();
    CountLeads();
    assert "power" + "(" == "power(";
    CallLeads(2, "power");
    CallLeads(1, "power");
    LeadsTwice(2, " * ", 2, "power(", 3);
    LeadsTwice(2, " * " + "power(", 3, "10, ", 3);
    assert " * " + "power(" + "10, " == " * power(10, ";
    LeadsTwice(3, "))", 1, " / ", 1);
    LeadsTwice(3, "))" + " / ", 1, "power(", 2);
    LeadsTwice(3, "))" + " / " + "power(", 2, "10, ", 2);
    assert "))" + " / " + "power(" + "10, " == ")) / power(10, ";
  }

  lemma TruncateTemplate(value: string, digits: string) returns (depths: seq<nat>)
    ensures Template(RewriteTruncate(value, digits), depths)
  {
    hide Leads, FormOf, Show;
    TruncateLeads();
    match FormOf(digits)
    case Whole =>
      depths := [1];
    case Up(n) =>
      depths := [2];
      ScaledTails(n);
    case Down(n) =>
      depths := [2];
      ScaledTails(n);
    case Power =>
      depths := [2, 3, 2];
      PowerLeads();
  }

  lemma ArgumentsLead()
    ensures Leads(1, ", ", 1) && Leads(1, " IN ", 1) && Leads(1, " AS ", 1) && Leads(1, ")", 0)
  {
  }

  lemma DatedTemplate(call: string, parts: seq<string>) returns (depths: seq<nat>)
    requires call == "date_add('" || call == "date_diff('"
    requires |parts| == 3 && Dated(call, parts).Some?
    ensures Template(Dated(call, parts).value, depths)
    ensures depths == [1, 1]
  {
    hide Leads, IntervalUnit;
    depths := [1, 1];
    UnitIsWord(parts[0]);
    DatedLeads(call, IntervalUnit(parts[0]).value);
    ArgumentsLead();
  }

  lemma ConvertTemplate(value: string, keyword: string)
    requires ConvertTarget(keyword).Some?
    ensures Template(Output([Slot("CAST(", value)], " AS " + ConvertTarget(keyword).value + ")"), [1])
  {
    hide Leads, ConvertTarget;
    var target := ConvertTarget(keyword).value;
    TargetIsWord(keyword);
    WordLeads(1, target);
    CallLeads(0, "CAST");
    assert "CAST" + "(" == "CAST(";
    ArgumentsLead();
    LeadsTwice(1, " AS ", 1, target, 1);
    LeadsTwice(1, " AS " + target, 1, ")", 0);
  }

  lemma CallsLead()
    ensures Leads(0, "position(", 1) && Leads(0, "ltrim(", 1) && Leads(0, "rtrim(", 1)
    ensures Leads(0, "length(rtrim(", 2) && Leads(0, "((day_of_week(", 3)
  {
    hide Leads;
    assert "position" + "(" == "position(" && "ltrim" + "(" == "ltrim(" && "rtrim" + "(" == "rtrim(";
    assert "length" + "(" == "length(" && "length(" + "rtrim(" == "length(rtrim(";
    assert [] + "(" == "(" && "(" + "(" == "((" && "day_of_week" + "(" == "day_of_week(";
    assert "((" + "day_of_week(" == "((day_of_week(";
    CallLeads(0, "position");
    CallLeads(0, "ltrim");
    CallLeads(0, "rtrim");
    CallLeads(0, "length");
    CallLeads(1, "rtrim");
    LeadsTwice(0, "length(", 1, "rtrim(", 2);
    CallLeads(0, []);
    CallLeads(1, []);
    CallLeads(2, "day_of_week");
    LeadsTwice(0, "(", 1, "(", 2);
    LeadsTwice(0, "((", 2, "day_of_week(", 3);
  }

  lemma BlankTails()
    ensures Leads(2, ", ' '))", 0) && Leads(1, ", ' ')", 0)
  {
  }

  lemma DayTail()
    ensures Leads(3, ") % 7) + 1)", 0)
  {
    hide Leads;
    DayPieces();
    var (modulus, successor) := (")" + " % 7", ")" + " + 1");
    LeadsTwice(3, ")", 2, " % 7", 2);
    LeadsTwice(2, ")", 1, " + 1", 1);
    LeadsTwice(3, modulus, 2, successor, 1);
    LeadsTwice(3, modulus + successor, 1, ")", 0);
    assert modulus + successor + ")" == ") % 7) + 1)";
  }

  lemma DayPieces()
    ensures Leads(3, ")", 2) && Leads(2, " % 7", 2) && Leads(2, ")", 1) && Leads(1, " + 1", 1) && Leads(1, ")", 0)
  {
  }

  lemma KeywordLeads()
    ensures Leads(0, "current_date", 0) && Leads(0, "current_time", 0) && Leads(0, "current_timestamp", 0)
    ensures Leads(0, "current_user", 0) && Leads(0, "current_catalog", 0) && Leads(0, "random()", 0)
  {
    hide Leads;
    WordLeads(0, "current_date");
    WordLeads(0, "current_time");
    WordLeads(0, "current_timestamp");
    WordLeads(0, "current_user");
    WordLeads(0, "current_catalog");
    CallLeads(0, "random");
    ArgumentsLead();
    LeadsTwice(0, "random" + "(", 1, ")", 0);
    assert "random" + "(" + ")" == "random()";
  }

  lemma RewriteIsTemplate(name: string, blank: bool, parts: seq<string>) returns (depths: seq<nat>)
    requires RewriteParts(name, blank, parts).Some?
    ensures Template(RewriteParts(name, blank, parts).value, depths)
    ensures forall k :: 0 <= k < |RewriteParts(name, blank, parts).value.slots| ==>
              RewriteParts(name, blank, parts).value.slots[k].arg in parts
  {
    hide Leads, Starts, Dated, ConvertTarget, RewriteTruncate;
    FixedStarts();
    match name
    case "LOCATE" => depths := [1, 1]; CallsLead(); ArgumentsLead();
    case "LENGTH" => depths := [2]; CallsLead(); BlankTails();
    case "LTRIM" => depths := [1]; CallsLead(); BlankTails();
    case "RTRIM" => depths := [1]; CallsLead(); BlankTails();
    case "TIMESTAMPADD" => depths := DatedTemplate("date_add('", parts); DatedSlots("date_add('", parts);
    case "TIMESTAMPDIFF" => depths := DatedTemplate("date_diff('", parts); DatedSlots("date_diff('", parts);
    case "CONVERT" => depths := [1]; ConvertTemplate(parts[0], parts[1]);
    case "TRUNCATE" => depths := TruncateTemplate(parts[0], parts[1]); TruncateSlots(parts[0], parts[1]);
    case "DAYOFWEEK" => depths := [3]; CallsLead(); DayTail();
    case _ => depths := []; KeywordLeads();
  }

  lemma DatedSlots(call: string, parts: seq<string>)
    requires |parts| == 3 && Dated(call, parts).Some?
    ensures forall k :: 0 <= k < |Dated(call, parts).value.slots| ==> Dated(call, parts).value.slots[k].arg in parts
  {
  }

  lemma TruncateSlots(value: string, digits: string)
    ensures forall k :: 0 <= k < |RewriteTruncate(value, digits).slots| ==>
              RewriteTruncate(value, digits).slots[k].arg in [value, digits]
  {
  }

  lemma FixedStarts()
    ensures Starts("position(") && Starts(" IN ") && Starts(")") && Starts("length(rtrim(") && Starts(", ' '))")
    ensures Starts("ltrim(") && Starts("rtrim(") && Starts(", ' ')") && Starts("((day_of_week(") && Starts(") % 7) + 1)")
    ensures Starts("current_date") && Starts("current_time") && Starts("current_timestamp")
    ensures Starts("current_user") && Starts("current_catalog") && Starts("random()")
  {
  }

  /** Which of its arguments a function pastes; the count of a TRUNCATE only when it cannot be folded. */
  function Pasted(name: string, parts: seq<string>): set<nat> {
    match name
    case "LOCATE" => {0, 1}
    case "LENGTH" | "LTRIM" | "RTRIM" | "CONVERT" | "DAYOFWEEK" => {0}
    case "TIMESTAMPADD" | "TIMESTAMPDIFF" => {1, 2}
    case "TRUNCATE" => if |parts| == 2 && FormOf(parts[1]).Power? then {0, 1} else {0}
    case _ => {}
  }

  /** `k` is a slot that pastes argument `i`. */
  predicate Pastes(out: Output, k: nat, parts: seq<string>, i: nat) {
    k < |out.slots| && i < |parts| && out.slots[k].arg == parts[i]
  }

  predicate PastesOneOf(out: Output, k: nat, parts: seq<string>, at: set<nat>) {
    exists i :: i in at && Pastes(out, k, parts, i)
  }

  /** The slots of a rewrite hold the arguments at the pasted positions, and no others. */
  lemma SlotsAreThePasted(name: string, blank: bool, parts: seq<string>)
    requires RewriteParts(name, blank, parts).Some?
    ensures var out := RewriteParts(name, blank, parts).value; var at := Pasted(name, parts);
            && (forall k :: 0 <= k < |out.slots| ==> PastesOneOf(out, k, parts, at))
            && (forall i :: i in at ==> exists k: nat :: Pastes(out, k, parts, i))
  {
    hide IntervalUnit, ConvertTarget, FormOf;
    var out := RewriteParts(name, blank, parts).value;
    match name
    case "LOCATE" => assert Pastes(out, 0, parts, 0) && Pastes(out, 1, parts, 1);
    case "TIMESTAMPADD" => assert Pastes(out, 0, parts, 1) && Pastes(out, 1, parts, 2);
    case "TIMESTAMPDIFF" => assert Pastes(out, 0, parts, 1) && Pastes(out, 1, parts, 2);
    case "TRUNCATE" =>
      assert Pastes(out, 0, parts, 0);
      if FormOf(parts[1]).Power? {
        assert Pastes(out, 1, parts, 1) && Pastes(out, 2, parts, 1);
      }
    case _ =>
      if out.slots != [] {
        assert Pastes(out, 0, parts, 0);
      }
  }

  /**
   * Rewriting is compositional, exactly when it can be: for every closed
   * argument text, the emitted text is one closed argument of an enclosing call
   * with every pasted argument followed by code, iff none of the arguments at
   * the positions the function pastes was left inside a line comment by trimming.
   */
  lemma RewriteIsIntactIff(name: string, args: string)
    requires Closed(args) && Rewrite(name, args).Some?
    ensures var parts := Trimmed(Cut(args)); var at := Pasted(Upper(name), parts);
            && (forall i :: i in at ==> i < |parts|)
            && (Intact(Rewrite(name, args).value) <==> forall i :: i in at ==> !EndsInLineComment(parts[i]))
  {
    hide RewriteParts, Pasted, Intact, Upper, Trim, EndsInLineComment;
    var parts := Trimmed(Cut(args));
    var out := Rewrite(name, args).value;
    SlotsAreThePasted(Upper(name), Trim(args) == [], parts);
    IntactIffNoSlotInComment(name, args);
    var at := Pasted(Upper(name), parts);
    if forall i :: i in at ==> !EndsInLineComment(parts[i]) {
      forall k | 0 <= k < |out.slots|
        ensures !EndsInLineComment(out.slots[k].arg)
      {
        assert PastesOneOf(out, k, parts, at);
      }
    }
    if forall k :: 0 <= k < |out.slots| ==> !EndsInLineComment(out.slots[k].arg) {
      forall i | i in at
        ensures !EndsInLineComment(parts[i])
      {
        var k: nat :| Pastes(out, k, parts, i);
      }
    }
  }

  lemma IntactIffNoSlotInComment(name: string, args: string)
    requires Closed(args) && Rewrite(name, args).Some?
    ensures var out := Rewrite(name, args).value;
            Intact(out) <==> forall k :: 0 <= k < |out.slots| ==> !EndsInLineComment(out.slots[k].arg)
  {
    hide RewriteParts, Template, Intact, Upper, Trim;
    var parts := Trimmed(Cut(args));
    var out := Rewrite(name, args).value;
    ClosedIffPiecesWhole(args);
    forall i | 0 <= i < |parts|
      ensures Piece(parts[i])
    {
      TrimmedPiece(Cut(args)[i]);
    }
    var depths := RewriteIsTemplate(Upper(name), Trim(args) == [], parts);
    SlotCount(out, depths);
    assert forall k :: 0 <= k < |out.slots| ==> Piece(out.slots[k].arg);
    if forall k :: 0 <= k < |out.slots| ==> !EndsInLineComment(out.slots[k].arg) {
      WholeArgumentsMakeIntact(out, depths);
    } else {
      var k := FirstComment(out);
      CommentMakesNotIntact(out, depths, k);
    }
  }

  lemma SlotCount(out: Output, depths: seq<nat>)
    requires Template(out, depths)
    ensures |depths| == |out.slots|
  {
  }

  /**
   * What is emitted, when intact, is one argument to the splitter again, so
   * rewritten calls nest.
   */
  lemma RewriteNests(name: string, args: string, before: seq<string>, after: seq<string>)
    requires Closed(args) && Rewrite(name, args).Some? && Intact(Rewrite(name, args).value)
    requires forall a :: a in before + after ==> OneArg(a)
    ensures var text := Emitted(Rewrite(name, args).value);
            Cut(Join(before + [text] + after)) == before + [text] + after
  {
    hide Intact, OneArg;
    var text := Emitted(Rewrite(name, args).value);
    IntactIsOneArg(Rewrite(name, args).value);
    var all := before + [text] + after;
    assert forall i :: 0 <= i < |all| ==> all[i] == text || all[i] in before + after;
    SplitUndoesJoin(all);
  }

  lemma IntactIsOneArg(out: Output)
    requires Intact(out)
    ensures OneArg(Emitted(out))
  {
  }

  lemma CommentSwallows()
    ensures Run(At(2), "a--") == Lex(Line, 2, false)
    ensures Run(Lex(Line, 2, false), ", ' '))") == Lex(Line, 2, false)
  {
  }

  /** The trap end to end: the rewritten call never closes. */
  lemma LengthOfCommentIsOpen()
    ensures Closed("a--\n") && Rewrite("LENGTH", "a--\n").Some?
    ensures !Closed(Emitted(Rewrite("LENGTH", "a--\n").value))
  {
    hide Run, NoCut, Leads, Trim, Cut;
    TrimCanOpenAComment();
    var text := "a--\n";
    SplitUndoesJoin([text]);
    assert Trimmed(Cut(text)) == ["a--"];
    assert Upper("LENGTH") == "LENGTH";
    var out := Output([Slot("length(rtrim(", "a--")], ", ' '))");
    assert Rewrite("LENGTH", text) == Some(out);
    assert out.slots[..0] == [];
    assert Emitted(out) == ("length(rtrim(" + "a--") + ", ' '))";
    CallsLead();
    LeadsMeansRun(0, "length(rtrim(", 2);
    RunConcat(START, "length(rtrim(", "a--");
    RunConcat(START, "length(rtrim(" + "a--", ", ' '))");
    CommentSwallows();
  }

  lemma LeadsMeansRun(from: nat, lit: string, to: nat)
    requires Leads(from, lit, to)
    ensures Run(At(from), lit) == At(to)
  {
  }
}
