// aianalytics/detector.go and sqlgen.go: the Go classifier that walks the agent
// list, the SQL macros generated from the same list, and why they agree.
module Classifier {
  import opened Wrappers
  import opened SqlText
  import opened AgentList
  import opened Text

  // A list that normalize has produced and validateAgentEntry has accepted.
  ghost predicate Accepted(agents: seq<Agent>) {
    UniqueTokens(agents) && forall i :: 0 <= i < |agents| ==> IsNormal(agents[i].token) && ValidToken(agents[i].token)
  }

  // --------------------------------------------------------- matching order

  // Longest token first, then token ascending.
  predicate Before(a: Agent, b: Agent) {
    |a.token| > |b.token| || (|a.token| == |b.token| && Text.Less(a.token, b.token))
  }

  lemma BeforeOrder(a: Agent, b: Agent)
    ensures !(Before(a, b) && Before(b, a))
    ensures a.token != b.token ==> Before(a, b) || Before(b, a)
  {
    Text.LessTrichotomy(a.token, b.token);
  }

  lemma BeforeRanks()
    ensures Ranks(Before)
  {
    forall a: Agent, b: Agent ensures Before(a, b) ==> !Before(b, a) {
      BeforeOrder(a, b);
    }
    forall a: Agent, b: Agent, c: Agent | Before(a, c) ensures Before(a, b) || Before(b, c) {
      if |a.token| == |b.token| == |c.token| {
        Text.LessTrichotomy(a.token, b.token);
        if Text.Less(b.token, a.token) { Text.LessTransitive(b.token, a.token, c.token); }
      }
    }
  }

  // matchOrderedAgents: sort a copy.
  function MatchOrderedAgents(agents: seq<Agent>): seq<Agent> {
    SortBy(Before, agents)
  }

  // --------------------------------------------------------- the Go classifier

  function FirstMatch(ordered: seq<Agent>, text: string): Option<Agent> {
    if ordered == [] then None
    else if Contains(text, ordered[0].token) then Some(ordered[0])
    else FirstMatch(ordered[1..], text)
  }

  // ClassifyBot
  function ClassifyBot(agents: seq<Agent>, userAgent: string): Option<Agent> {
    var normalized := Lower(TrimSpace(userAgent));
    if normalized == "" then None else FirstMatch(MatchOrderedAgents(agents), normalized)
  }

  // The token of a is contained in the text, and every other contained token is
  // shorter, or as long and greater.
  ghost predicate Wins(agents: seq<Agent>, text: string, a: Agent) {
    && a in agents && Contains(text, a.token)
    && forall b :: b in agents && Contains(text, b.token) ==>
      b == a || |b.token| < |a.token| || (|b.token| == |a.token| && Text.Less(a.token, b.token))
  }

  lemma {:induction false} FirstMatchWins(ordered: seq<Agent>, text: string)
    requires Ordered(Before, ordered) && UniqueTokens(ordered)
    ensures FirstMatch(ordered, text).Some? ==> Wins(ordered, text, FirstMatch(ordered, text).value)
    ensures FirstMatch(ordered, text).None? ==> forall b :: b in ordered ==> !Contains(text, b.token)
  {
    if ordered != [] {
      assert ordered == [ordered[0]] + ordered[1..];
      if Contains(text, ordered[0].token) {
        forall b | b in ordered && b != ordered[0] ensures Before(ordered[0], b) {
          var j :| 0 <= j < |ordered| && ordered[j] == b;
          BeforeOrder(ordered[0], b);
        }
      } else {
        FirstMatchWins(ordered[1..], text);
      }
    }
  }

  lemma SortKeepsUnique(agents: seq<Agent>)
    requires UniqueTokens(agents)
    ensures UniqueTokens(MatchOrderedAgents(agents))
    ensures forall a :: a in MatchOrderedAgents(agents) <==> a in agents
  {
    forall a ensures a in MatchOrderedAgents(agents) <==> a in agents {
      assert a in multiset(MatchOrderedAgents(agents)) <==> a in multiset(agents);
    }
    UniqueByCounts(MatchOrderedAgents(agents), agents);
  }

  lemma UniqueByCounts(r: seq<Agent>, s: seq<Agent>)
    requires UniqueTokens(s) && multiset(r) == multiset(s)
    ensures UniqueTokens(r)
  {
    Text.DistinctByCounts(r, s);
    forall i, j | 0 <= i < j < |r| ensures r[i].token != r[j].token {
      assert r[i] in multiset(s) && r[j] in multiset(s);
      var x :| 0 <= x < |s| && s[x] == r[i];
      var y :| 0 <= y < |s| && s[y] == r[j];
    }
  }

  // The classifier returns the one contained token that is longest, ties going
  // to the smaller token, and nothing exactly when no token is contained.
  lemma ClassifyBotIsLongest(agents: seq<Agent>, userAgent: string)
    requires UniqueTokens(agents) && forall i :: 0 <= i < |agents| ==> agents[i].token != ""
    ensures var r := ClassifyBot(agents, userAgent);
            var text := Lower(TrimSpace(userAgent));
            && (r.Some? ==> Wins(agents, text, r.value))
            && (r.None? ==> forall a :: a in agents ==> !Contains(text, a.token))
  {
    SortKeepsUnique(agents);
    BeforeRanks();
    SortByOrdered(Before, agents);
    FirstMatchWins(MatchOrderedAgents(agents), Lower(TrimSpace(userAgent)));
  }

  lemma WinnerIsUnique(agents: seq<Agent>, text: string, a: Agent, b: Agent)
    requires Wins(agents, text, a) && Wins(agents, text, b)
    ensures a == b
  {
    BeforeOrder(a, b);
  }

  lemma ContainsMeans(text: string, token: string)
    ensures Contains(text, token) <==> exists before: string, after: string :: text == before + token + after
  {
    if i :| 0 <= i <= |text| && OccursAt(text, token, i) {
      assert text == text[..i] + token + text[i + |token|..];
    }
    if before: string, after: string :| text == before + token + after {
      assert text[|before|..|before| + |token|] == token && OccursAt(text, token, |before|);
    }
  }

  // The order in which the list is stored does not matter.
  lemma ClassifyBotIgnoresOrder(agents: seq<Agent>, agents': seq<Agent>, userAgent: string)
    requires UniqueTokens(agents) && forall i :: 0 <= i < |agents| ==> agents[i].token != ""
    requires multiset(agents) == multiset(agents')
    ensures ClassifyBot(agents, userAgent) == ClassifyBot(agents', userAgent)
  {
    UniqueByCounts(agents', agents);
    forall a ensures a in agents <==> a in agents' {
      assert a in multiset(agents) <==> a in multiset(agents');
    }
    ClassifyBotIsLongest(agents, userAgent);
    ClassifyBotIsLongest(agents', userAgent);
    var text := Lower(TrimSpace(userAgent));
    var r, r' := ClassifyBot(agents, userAgent), ClassifyBot(agents', userAgent);
    if r.Some? && r'.Some? {
      assert Wins(agents, text, r'.value);
      WinnerIsUnique(agents, text, r.value, r'.value);
    }
  }

  // ------------------------------------------------------------ generated SQL

  // One arm of a CASE: what is compared with, and what the arm gives.
  datatype Arm = Arm(left: string, result: string)

  // A CASE macro: its name and parameter, and the text around the two literals
  // of an arm.
  datatype Template = Template(name: string, parameter: string, when: string, then_: string)

  const BotName := Template("hk_ai_bot_lc", "lua", "        WHEN lua LIKE ", " ESCAPE '|' THEN ")
  const BotCategory := Template("hk_ai_bot_category_lc", "lua", "        WHEN lua LIKE ", " ESCAPE '|' THEN ")
  const FromName := Template("hk_ai_bot_category_from_name", "name", "        WHEN name = ", " THEN ")
  const CreateMacro := "CREATE OR REPLACE MACRO "
  const CaseStart := ") AS\n    CASE\n"
  const ElseNull := "        ELSE NULL\n    END;"

  function LikePattern(token: string): string {
    "%" + EscapeLike(token) + "%"
  }

  function ArmText(t: Template, arm: Arm): string {
    t.when + (SqlString(arm.left) + (t.then_ + (SqlString(arm.result) + "\n")))
  }

  function ArmsText(t: Template, arms: seq<Arm>): string {
    if arms == [] then "" else ArmText(t, arms[0]) + ArmsText(t, arms[1..])
  }

  function Header(t: Template): string {
    CreateMacro + t.name + "(" + t.parameter + CaseStart
  }

  function MacroText(t: Template, arms: seq<Arm>): string {
    Header(t) + (ArmsText(t, arms) + ElseNull)
  }

  // The macros over raw user agents; each calls a CASE macro.
  const OuterBot := "hk_ai_bot"
  const OuterBotCategory := "hk_ai_bot_category"
  const OuterStart := "(" + "ua) AS\n    CASE WHEN ua IS NULL OR TRIM(ua) = '' THEN NULL ELSE "
  const OuterEnd := "(lower(ua)) END;"

  function OuterText(name: string, callee: string): string {
    CreateMacro + (name + (OuterStart + (callee + OuterEnd)))
  }

  lemma {:induction false} ArmsTextSnoc(t: Template, arms: seq<Arm>, arm: Arm)
    ensures ArmsText(t, arms + [arm]) == ArmsText(t, arms) + ArmText(t, arm)
  {
    hide ArmText;
    if arms == [] {
      assert [arm][1..] == [];
      assert ArmsText(t, [arm]) == ArmText(t, arm) + "";
    } else {
      ArmsTextSnoc(t, arms[1..], arm);
      assert (arms + [arm])[1..] == arms[1..] + [arm];
    }
  }

  function NameArms(ordered: seq<Agent>): (r: seq<Arm>)
    ensures |r| == |ordered| && forall i :: 0 <= i < |r| ==> r[i] == Arm(LikePattern(ordered[i].token), ordered[i].name)
  {
    seq(|ordered|, i requires 0 <= i < |ordered| => Arm(LikePattern(ordered[i].token), ordered[i].name))
  }

  function CategoryArms(ordered: seq<Agent>): (r: seq<Arm>)
    ensures |r| == |ordered|
    ensures forall i :: 0 <= i < |r| ==> r[i] == Arm(LikePattern(ordered[i].token), ordered[i].category)
  {
    seq(|ordered|, i requires 0 <= i < |ordered| => Arm(LikePattern(ordered[i].token), ordered[i].category))
  }

  function Names(agents: seq<Agent>): set<string> {
    set a | a in agents :: a.name
  }

  // The first entry of each name.
  function FromNameArms(ordered: seq<Agent>): seq<Arm> {
    if ordered == [] then []
    else
      var init, last := ordered[..|ordered| - 1], ordered[|ordered| - 1];
      FromNameArms(init) + if last.name in Names(init) then [] else [Arm(last.name, last.category)]
  }

  // The two CASE macros over user agents, written arm by arm.
  method WriteBotArms(ordered: seq<Agent>, bot: Template, category: Template)
    returns (botArms: string, categoryArms: string)
    ensures botArms == ArmsText(bot, NameArms(ordered))
    ensures categoryArms == ArmsText(category, CategoryArms(ordered))
  {
    hide ArmText, LikePattern;
    botArms, categoryArms := "", "";
    for i := 0 to |ordered|
      invariant botArms == ArmsText(bot, NameArms(ordered[..i]))
      invariant categoryArms == ArmsText(category, CategoryArms(ordered[..i]))
    {
      var agent := ordered[i];
      var pattern := LikePattern(agent.token);
      ArmsTextSnoc(bot, NameArms(ordered[..i]), Arm(pattern, agent.name));
      ArmsTextSnoc(category, CategoryArms(ordered[..i]), Arm(pattern, agent.category));
      assert NameArms(ordered[..i + 1]) == NameArms(ordered[..i]) + [Arm(pattern, agent.name)];
      assert CategoryArms(ordered[..i + 1]) == CategoryArms(ordered[..i]) + [Arm(pattern, agent.category)];
      botArms := botArms + ArmText(bot, Arm(pattern, agent.name));
      categoryArms := categoryArms + ArmText(category, Arm(pattern, agent.category));
    }
    assert ordered[..|ordered|] == ordered;
  }

  // aiBotCategoryFromNameMacro
  method WriteFromNameArms(ordered: seq<Agent>, t: Template) returns (arms: string)
    ensures arms == ArmsText(t, FromNameArms(ordered))
  {
    hide ArmText;
    arms := "";
    var seen: set<string> := {};
    for i := 0 to |ordered|
      invariant seen == Names(ordered[..i])
      invariant arms == ArmsText(t, FromNameArms(ordered[..i]))
    {
      var agent := ordered[i];
      assert ordered[..i + 1] == ordered[..i] + [agent] && ordered[..i + 1][..i] == ordered[..i];
      if agent.name in seen {
        assert FromNameArms(ordered[..i + 1]) == FromNameArms(ordered[..i]);
        continue;
      }
      seen := seen + {agent.name};
      ArmsTextSnoc(t, FromNameArms(ordered[..i]), Arm(agent.name, agent.category));
      arms := arms + ArmText(t, Arm(agent.name, agent.category));
    }
    assert ordered[..|ordered|] == ordered;
  }

  // What AIClassificationMacroStatements returns about user agents, in its order
  function Statements(agents: seq<Agent>): seq<string> {
    var ordered := MatchOrderedAgents(agents);
    [
      MacroText(BotName, NameArms(ordered)), OuterText(OuterBot, BotName.name),
      MacroText(BotCategory, CategoryArms(ordered)), OuterText(OuterBotCategory, BotCategory.name),
      MacroText(FromName, FromNameArms(ordered))
    ]
  }

  method WriteMacros(agents: seq<Agent>) returns (statements: seq<string>)
    ensures statements == Statements(agents)
  {
    hide ArmsText, NameArms, CategoryArms, FromNameArms;
    var ordered := MatchOrderedAgents(agents);
    var bot, category := WriteBotArms(ordered, BotName, BotCategory);
    var fromName := WriteFromNameArms(ordered, FromName);
    statements := [
      Header(BotName) + (bot + ElseNull), OuterText(OuterBot, BotName.name),
      Header(BotCategory) + (category + ElseNull), OuterText(OuterBotCategory, BotCategory.name),
      Header(FromName) + (fromName + ElseNull)
    ];
  }

  // The SQL of the macros, letter by letter
  lemma ArmsAreSql(arm: Arm)
    ensures ArmText(BotName, arm)
         == "        WHEN lua LIKE " + SqlString(arm.left) + " ESCAPE '|' THEN " + SqlString(arm.result) + "\n"
    ensures ArmText(BotCategory, arm)
         == "        WHEN lua LIKE " + SqlString(arm.left) + " ESCAPE '|' THEN " + SqlString(arm.result) + "\n"
    ensures ArmText(FromName, arm)
         == "        WHEN name = " + SqlString(arm.left) + " THEN " + SqlString(arm.result) + "\n"
  {
  }

  // Around the arms
  lemma HeaderIsSql(t: Template)
    ensures Header(t) == "CREATE OR REPLACE MACRO " + (t.name + ("(" + (t.parameter + ") AS\n    CASE\n")))
    ensures ElseNull == "        ELSE NULL\n    END;"
    ensures BotName.name == "hk_ai_bot_lc" && BotName.parameter == "lua"
    ensures BotCategory.name == "hk_ai_bot_category_lc" && BotCategory.parameter == "lua"
    ensures FromName.name == "hk_ai_bot_category_from_name" && FromName.parameter == "name"
  {
    Joined(CreateMacro, t.name, "(", t.parameter, CaseStart);
  }

  lemma Joined(a: string, b: string, c: string, d: string, e: string)
    ensures a + (b + (c + (d + e))) == a + b + c + d + e
  {
  }

  lemma OuterIsSql(name: string, callee: string)
    ensures OuterText(name, callee)
         == "CREATE OR REPLACE MACRO " + name
            + ("(" + "ua) AS\n    CASE WHEN ua IS NULL OR TRIM(ua) = '' THEN NULL ELSE ") + callee + "(lower(ua)) END;"
  {
    Joined(CreateMacro, name, OuterStart, callee, OuterEnd);
  }

  // CREATE OR REPLACE MACRO name(parameter) AS CASE arms ELSE NULL END;
  ghost function CaseSql(name: string, parameter: string, arms: string): string {
    "CREATE OR REPLACE MACRO " + (name + ("(" + (parameter + ") AS\n    CASE\n")))
    + (arms + "        ELSE NULL\n    END;")
  }

  lemma StatementsAreSql(agents: seq<Agent>)
    ensures var ordered, s := MatchOrderedAgents(agents), Statements(agents);
            && s[0] == CaseSql("hk_ai_bot_lc", "lua", ArmsText(BotName, NameArms(ordered)))
            && s[1] == OuterText("hk_ai_bot", "hk_ai_bot_lc")
            && s[2] == CaseSql("hk_ai_bot_category_lc", "lua", ArmsText(BotCategory, CategoryArms(ordered)))
            && s[3] == OuterText("hk_ai_bot_category", "hk_ai_bot_category_lc")
            && s[4] == CaseSql("hk_ai_bot_category_from_name", "name", ArmsText(FromName, FromNameArms(ordered)))
  {
    HeaderIsSql(BotName);
    HeaderIsSql(BotCategory);
    HeaderIsSql(FromName);
    hide OuterText, ArmsText, Header, MatchOrderedAgents, NameArms, CategoryArms, FromNameArms;
  }

  // ------------------------------------------------ reading the SQL text back

  function Strip(prefix: string, text: string): (r: Option<string>)
    ensures r.Some? <==> |prefix| <= |text| && text[..|prefix|] == prefix
    ensures r.Some? ==> text == prefix + r.value
  {
    if |prefix| <= |text| && text[..|prefix|] == prefix then
      assert text == text[..|prefix|] + text[|prefix|..];
      Some(text[|prefix|..])
    else None
  }

  lemma StripInverts(prefix: string, rest: string)
    ensures Strip(prefix, prefix + rest) == Some(rest)
  {
    assert (prefix + rest)[..|prefix|] == prefix && (prefix + rest)[|prefix|..] == rest;
  }

  // WHEN ... 'left' ... THEN 'result', and the text after it
  function ReadArm(t: Template, text: string): Option<(Arm, string)> {
    match Strip(t.when, text)
    case None => None
    case Some(a) =>
      match ReadLiteral(a)
      case None => None
      case Some((left, b)) =>
        match Strip(t.then_, b)
        case None => None
        case Some(c) =>
          match ReadLiteral(c)
          case None => None
          case Some((result, d)) =>
            match Strip("\n", d)
            case None => None
            case Some(rest) => Some((Arm(left, result), rest))
  }

  // The arms of a CASE up to its ELSE NULL END.
  function ReadArms(t: Template, end: string, text: string): Option<seq<Arm>>
    decreases |text|
  {
    if text == end then Some([])
    else
      match ReadArm(t, text)
      case None => None
      case Some((arm, rest)) =>
        if |rest| >= |text| then None
        else
          match ReadArms(t, end, rest)
          case None => None
          case Some(arms) => Some([arm] + arms)
  }

  function ReadMacro(t: Template, text: string): Option<seq<Arm>> {
    match Strip(Header(t), text)
    case None => None
    case Some(body) => ReadArms(t, ElseNull, body)
  }

  lemma ReadArmInverts(t: Template, arm: Arm, rest: string)
    requires t.then_ != "" && t.then_[0] != '\''
    ensures ReadArm(t, ArmText(t, arm) + rest) == Some((arm, rest))
    ensures t.when != "" ==> |ArmText(t, arm) + rest| > |rest|
  {
    var d := "\n" + rest;
    var c := SqlString(arm.result) + d;
    var b := t.then_ + c;
    var a := SqlString(arm.left) + b;
    assert ArmText(t, arm) + rest == t.when + a;
    StripInverts(t.when, a);
    ReadLiteralInverts(arm.left, b);
    StripInverts(t.then_, c);
    ReadLiteralInverts(arm.result, d);
    StripInverts("\n", rest);
  }

  lemma {:induction false} ReadArmsInverts(t: Template, end: string, arms: seq<Arm>)
    requires t.then_ != "" && t.then_[0] != '\'' && t.when != "" && Strip(t.when, end).None?
    ensures ReadArms(t, end, ArmsText(t, arms) + end) == Some(arms)
  {
    hide ReadArm;
    var text := ArmsText(t, arms) + end;
    if arms == [] {
      assert text == end;
    } else {
      var rest := ArmsText(t, arms[1..]) + end;
      assert text == ArmText(t, arms[0]) + rest;
      ReadArmInverts(t, arms[0], rest);
      assert Strip(t.when, text).Some?;
      ReadArmsInverts(t, end, arms[1..]);
      assert arms == [arms[0]] + arms[1..];
    }
  }

  // A generated macro parses to the arms it was written from, whatever quotes
  // the names in it carry.
  lemma ReadMacroInverts(t: Template, arms: seq<Arm>)
    requires t == BotName || t == BotCategory || t == FromName
    ensures ReadMacro(t, MacroText(t, arms)) == Some(arms)
  {
    assert t.when[8] == 'W' && ElseNull[8] == 'E';
    assert Strip(t.when, ElseNull).None? by {
      assert |t.when| > 8 && |ElseNull| > 8;
    }
    ReadArmsInverts(t, ElseNull, arms);
    StripInverts(Header(t), ArmsText(t, arms) + ElseNull);
  }

  // The text before a bracket, and the rest from the bracket on
  function ReadName(text: string): (string, string) {
    if text == "" || text[0] == '(' then ("", text)
    else
      var (name, rest) := ReadName(text[1..]);
      ([text[0]] + name, rest)
  }

  // The name of a macro over raw user agents, and of the macro it calls
  function ReadOuter(text: string): Option<(string, string)> {
    match Strip(CreateMacro, text)
    case None => None
    case Some(a) =>
      var (name, b) := ReadName(a);
      match Strip(OuterStart, b)
      case None => None
      case Some(c) =>
        var (callee, d) := ReadName(c);
        if d == OuterEnd then Some((name, callee)) else None
  }

  lemma {:induction false} ReadNameInverts(name: string, rest: string)
    requires '(' !in name && rest != "" && rest[0] == '('
    ensures ReadName(name + rest) == (name, rest)
  {
    if name == "" {
      assert name + rest == rest;
    } else {
      ReadNameInverts(name[1..], rest);
      assert (name + rest)[1..] == name[1..] + rest && (name + rest)[0] == name[0];
      assert name == [name[0]] + name[1..];
    }
  }

  lemma ReadOuterInverts(name: string, callee: string)
    requires '(' !in name && '(' !in callee
    ensures ReadOuter(OuterText(name, callee)) == Some((name, callee))
  {
    assert OuterStart[0] == '(' && OuterEnd[0] == '(';
    hide CreateMacro, OuterStart, OuterEnd;
    var c := callee + OuterEnd;
    var b := OuterStart + c;
    StripInverts(CreateMacro, name + b);
    assert b[0] == '(' by { assert b[0] == OuterStart[0]; }
    ReadNameInverts(name, b);
    StripInverts(OuterStart, c);
    ReadNameInverts(callee, OuterEnd);
  }

  // ------------------------------------------------------- running the macros

  // CASE WHEN lua LIKE 'left' ESCAPE '|' THEN 'result' ... ELSE NULL END
  function LikeCase(arms: seq<Arm>, lua: string): Option<string> {
    if arms == [] then None
    else if Like(lua, arms[0].left, '|') then Some(arms[0].result)
    else LikeCase(arms[1..], lua)
  }

  // CASE WHEN name = 'left' THEN 'result' ... ELSE NULL END; NULL equals nothing.
  function NameCase(arms: seq<Arm>, name: Option<string>): Option<string> {
    if arms == [] then None
    else if name == Some(arms[0].left) then Some(arms[0].result)
    else NameCase(arms[1..], name)
  }

  // CASE WHEN ua IS NULL OR TRIM(ua) = '' THEN NULL ELSE ..._lc(lower(ua)) END
  function OverUserAgent(arms: seq<Arm>, ua: Option<string>): Option<string> {
    if ua.None? || Trim(ua.value, IsBlank) == "" then None else LikeCase(arms, Lower(ua.value))
  }

  // Calling the macro of that name: both texts are read back, and the outer one
  // must define the name and call the inner one.
  function CallOuter(name: string, outer: string, t: Template, inner: string, ua: Option<string>): Option<string> {
    match ReadOuter(outer)
    case None => None
    case Some((defined, callee)) =>
      if defined != name || callee != t.name then None
      else
        match ReadMacro(t, inner)
        case None => None
        case Some(arms) => OverUserAgent(arms, ua)
  }

  function HkAiBot(agents: seq<Agent>, ua: Option<string>): Option<string> {
    var s := Statements(agents);
    CallOuter(OuterBot, s[1], BotName, s[0], ua)
  }

  function HkAiBotCategory(agents: seq<Agent>, ua: Option<string>): Option<string> {
    var s := Statements(agents);
    CallOuter(OuterBotCategory, s[3], BotCategory, s[2], ua)
  }

  function HkAiBotCategoryFromName(agents: seq<Agent>, name: Option<string>): Option<string> {
    match ReadMacro(FromName, Statements(agents)[4])
    case None => None
    case Some(arms) => NameCase(arms, name)
  }

  lemma CallReadsBack(name: string, t: Template, arms: seq<Arm>, ua: Option<string>)
    requires t == BotName || t == BotCategory
    requires '(' !in name && '(' !in t.name
    ensures CallOuter(name, OuterText(name, t.name), t, MacroText(t, arms), ua) == OverUserAgent(arms, ua)
  {
    hide OuterText, MacroText, ReadOuter, ReadMacro, OverUserAgent;
    ReadOuterInverts(name, t.name);
    ReadMacroInverts(t, arms);
  }

  // The statements read back to the arms they were written from.
  lemma StatementsReadBack(agents: seq<Agent>, ua: Option<string>, name: Option<string>)
    ensures var ordered := MatchOrderedAgents(agents);
            && HkAiBot(agents, ua) == OverUserAgent(NameArms(ordered), ua)
            && HkAiBotCategory(agents, ua) == OverUserAgent(CategoryArms(ordered), ua)
            && HkAiBotCategoryFromName(agents, name) == NameCase(FromNameArms(ordered), name)
  {
    var ordered := MatchOrderedAgents(agents);
    assert '(' !in OuterBot && '(' !in BotName.name;
    assert '(' !in OuterBotCategory && '(' !in BotCategory.name;
    hide MacroText, OuterText, CallOuter, ReadMacro, OverUserAgent, NameCase;
    hide MatchOrderedAgents, NameArms, CategoryArms;
    CallReadsBack(OuterBot, BotName, NameArms(ordered), ua);
    CallReadsBack(OuterBotCategory, BotCategory, CategoryArms(ordered), ua);
    ReadMacroInverts(FromName, FromNameArms(ordered));
  }

  // ------------------------------------------------------ the two views agree

  lemma {:induction false} LikeCaseIsFirstMatch(ordered: seq<Agent>, text: string)
    requires forall i :: 0 <= i < |ordered| ==> '%' !in ordered[i].token
    ensures LikeCase(NameArms(ordered), text)
      == (match FirstMatch(ordered, text) case Some(a) => Some(a.name) case None => None)
    ensures LikeCase(CategoryArms(ordered), text)
         == (match FirstMatch(ordered, text) case Some(a) => Some(a.category) case None => None)
  {
    if ordered != [] {
      LikeIsContains(text, ordered[0].token);
      LikeCaseIsFirstMatch(ordered[1..], text);
      assert NameArms(ordered)[1..] == NameArms(ordered[1..]);
      assert CategoryArms(ordered)[1..] == CategoryArms(ordered[1..]);
    }
  }

  lemma OccursEnds(s: string, t: string, i: int)
    requires OccursAt(s, t, i) && t != ""
    ensures s[i] == t[0] && s[i + |t| - 1] == t[|t| - 1]
  {
    assert s[i] == s[i..i + |t|][0] && s[i + |t| - 1] == s[i..i + |t|][|t| - 1];
  }

  lemma SliceOfSlice(s: string, lo: nat, hi: nat, i: nat, j: nat)
    requires lo <= hi <= |s| && i <= j <= hi - lo
    ensures s[lo..hi][i..j] == s[lo + i..lo + j]
  {
    var a, b := s[lo..hi][i..j], s[lo + i..lo + j];
    assert |a| == |b| && forall k :: 0 <= k < j - i ==> a[k] == b[k];
  }

  lemma OccursInSlice(s: string, t: string, lo: nat, hi: nat, i: int)
    requires lo <= hi <= |s| && t != ""
    requires forall i :: 0 <= i < lo ==> s[i] != t[0]
    requires forall i :: hi <= i < |s| ==> s[i] != t[|t| - 1]
    ensures OccursAt(s, t, i) <==> lo <= i && OccursAt(s[lo..hi], t, i - lo)
  {
    if OccursAt(s, t, i) {
      OccursEnds(s, t, i);
      assert lo <= i && i + |t| - 1 < hi;
      SliceOfSlice(s, lo, hi, i - lo, i - lo + |t|);
    }
    if lo <= i && OccursAt(s[lo..hi], t, i - lo) {
      SliceOfSlice(s, lo, hi, i - lo, i - lo + |t|);
    }
  }

  lemma SliceContains(s: string, t: string, lo: nat, hi: nat)
    requires lo <= hi <= |s| && t != ""
    requires forall i :: 0 <= i < lo ==> s[i] != t[0]
    requires forall i :: hi <= i < |s| ==> s[i] != t[|t| - 1]
    ensures Contains(s, t) <==> Contains(s[lo..hi], t)
  {
    hide OccursAt;
    if Contains(s, t) {
      var i :| 0 <= i <= |s| && OccursAt(s, t, i);
      OccursInSlice(s, t, lo, hi, i);
      OccursBound(s[lo..hi], t, i - lo);
      assert OccursAt(s[lo..hi], t, i - lo);
    }
    if Contains(s[lo..hi], t) {
      var i :| 0 <= i <= hi - lo && OccursAt(s[lo..hi], t, i);
      OccursInSlice(s, t, lo, hi, i + lo);
      assert OccursAt(s, t, i + lo);
    }
  }

  lemma OccursBound(s: string, t: string, i: int)
    requires OccursAt(s, t, i)
    ensures 0 <= i <= |s|
  {
  }

  // A token that neither starts nor ends with a space is contained in the
  // trimmed text exactly when it is contained in the text.
  lemma TrimKeepsTokens(ua: string, token: string)
    requires token != "" && !IsSpace(token[0]) && !IsSpace(token[|token| - 1])
    ensures Contains(Lower(ua), token) <==> Contains(Lower(TrimSpace(ua)), token)
  {
    var lo, hi := TrimCuts(ua, IsSpace);
    assert Lower(TrimSpace(ua)) == Lower(ua)[lo..hi];
    forall i | 0 <= i < |ua| && IsSpace(ua[i]) ensures IsSpace(Lower(ua)[i]) {
    }
    SliceContains(Lower(ua), token, lo, hi);
  }

  lemma BlankContainsNothing(ua: string, token: string)
    requires Trim(ua, IsBlank) == ""
    requires token != "" && !IsSpace(token[0])
    ensures !Contains(Lower(ua), token)
  {
    var lo, hi := TrimCuts(ua, IsBlank);
    forall i | 0 <= i <= |ua| ensures !OccursAt(Lower(ua), token, i) {
      if i < |ua| { assert IsBlank(ua[i]) && Lower(ua)[i] == ' '; }
      if OccursAt(Lower(ua), token, i) { OccursEnds(Lower(ua), token, i); }
    }
  }

  lemma {:induction false} FirstMatchDepends(ordered: seq<Agent>, text: string, text': string)
    requires forall i :: 0 <= i < |ordered| ==>
      (Contains(text, ordered[i].token) <==> Contains(text', ordered[i].token))
    ensures FirstMatch(ordered, text) == FirstMatch(ordered, text')
  {
    if ordered != [] {
      FirstMatchDepends(ordered[1..], text, text');
    }
  }

  lemma {:induction false} FirstMatchNone(ordered: seq<Agent>, text: string)
    requires forall i :: 0 <= i < |ordered| ==> !Contains(text, ordered[i].token)
    ensures FirstMatch(ordered, text).None?
  {
    if ordered != [] {
      FirstMatchNone(ordered[1..], text);
    }
  }

  lemma AcceptedInOrder(agents: seq<Agent>)
    requires Accepted(agents)
    ensures var ordered := MatchOrderedAgents(agents);
            && Accepted(ordered)
            && forall i :: 0 <= i < |ordered| ==> TokenShape(ordered[i].token)
  {
    hide NormalToken, MatchOrderedAgents;
    var ordered := MatchOrderedAgents(agents);
    SortKeepsUnique(agents);
    forall i | 0 <= i < |ordered|
      ensures IsNormal(ordered[i].token) && ValidToken(ordered[i].token) && TokenShape(ordered[i].token)
    {
      assert ordered[i] in agents;
      NormalTokenStays(ordered[i].token);
    }
  }

  // What validation and normalisation make sure of, as the proofs need it.
  ghost predicate TokenShape(token: string) {
    && token != "" && !IsSpace(token[0]) && !IsSpace(token[|token| - 1]) && '%' !in token
  }

  lemma TokenSearch(ua: string, token: string)
    requires TokenShape(token)
    ensures Contains(Lower(ua), token) <==> Contains(Lower(TrimSpace(ua)), token)
    ensures Trim(ua, IsBlank) == "" || TrimSpace(ua) == "" ==> !Contains(Lower(ua), token)
  {
    TrimKeepsTokens(ua, token);
    if Trim(ua, IsBlank) == "" { BlankContainsNothing(ua, token); }
  }

  // Read back, the macros search the lowered text, trimmed or not.
  lemma MacrosSearchTrimmedText(agents: seq<Agent>, ua: string)
    requires Accepted(agents)
    ensures var ordered := MatchOrderedAgents(agents);
            var found := FirstMatch(ordered, Lower(TrimSpace(ua)));
            && FirstMatch(ordered, Lower(ua)) == found
            && (Trim(ua, IsBlank) == "" || TrimSpace(ua) == "" ==> found.None?)
  {
    var ordered := MatchOrderedAgents(agents);
    var text, trimmed := Lower(ua), Lower(TrimSpace(ua));
    AcceptedInOrder(agents);
    forall i | 0 <= i < |ordered|
      ensures Contains(text, ordered[i].token) <==> Contains(trimmed, ordered[i].token)
      ensures Trim(ua, IsBlank) == "" || TrimSpace(ua) == "" ==> !Contains(text, ordered[i].token)
    {
      assert TokenShape(ordered[i].token);
      TokenSearch(ua, ordered[i].token);
    }
    FirstMatchDepends(ordered, text, trimmed);
    if Trim(ua, IsBlank) == "" || TrimSpace(ua) == "" {
      FirstMatchNone(ordered, text);
    }
  }

  // For every accepted list and every ASCII user agent, the SQL macros give the
  // name and the category that ClassifyBot gives, and NULL when it gives nil.
  lemma MacrosAgreeWithClassifier(agents: seq<Agent>, ua: string)
    requires Accepted(agents) && IsAscii(ua)
    ensures HkAiBot(agents, Some(ua)) == (match ClassifyBot(agents, ua) case Some(a) => Some(a.name) case None => None)
    ensures HkAiBotCategory(agents, Some(ua))
         == (match ClassifyBot(agents, ua) case Some(a) => Some(a.category) case None => None)
  {
    var ordered := MatchOrderedAgents(agents);
    AcceptedInOrder(agents);
    StatementsReadBack(agents, Some(ua), None);
    hide HkAiBot, HkAiBotCategory;
    LikeCaseIsFirstMatch(ordered, Lower(ua));
    MacrosSearchTrimmedText(agents, ua);
  }

  // ------------------------------------------------------ category from name

  lemma {:induction false} NameCaseSnoc(arms: seq<Arm>, arm: Arm, name: string)
    ensures NameCase(arms + [arm], Some(name))
         == if NameCase(arms, Some(name)).Some? then NameCase(arms, Some(name))
            else if arm.left == name then Some(arm.result) else None
  {
    if arms == [] {
      assert [arm][1..] == [];
    } else {
      NameCaseSnoc(arms[1..], arm, name);
      assert (arms + [arm])[1..] == arms[1..] + [arm];
    }
  }

  // The macro gives the category of the first entry of that name.
  lemma {:induction false} FromNameIsFirst(ordered: seq<Agent>, name: string)
    ensures name !in Names(ordered) ==> NameCase(FromNameArms(ordered), Some(name)).None?
    ensures forall k :: 0 <= k < |ordered| && ordered[k].name == name && name !in Names(ordered[..k]) ==>
      NameCase(FromNameArms(ordered), Some(name)) == Some(ordered[k].category)
  {
    if ordered != [] {
      var n := |ordered| - 1;
      var init, last := ordered[..n], ordered[n];
      FromNameIsFirst(init, name);
      assert ordered == init + [last];
      NameCaseSnoc(FromNameArms(init), Arm(last.name, last.category), name);
      assert FromNameArms(init) + [] == FromNameArms(init);
      forall k | 0 <= k < |ordered| && ordered[k].name == name && name !in Names(ordered[..k])
        ensures NameCase(FromNameArms(ordered), Some(name)) == Some(ordered[k].category)
      {
        if k < n {
          assert init[..k] == ordered[..k] && init[k] == ordered[k];
          assert NameCase(FromNameArms(init), Some(name)) == Some(init[k].category);
        } else {
          assert ordered[..k] == init;
        }
      }
    }
  }

  ghost predicate SameNameSameCategory(agents: seq<Agent>) {
    forall a, b :: a in agents && b in agents && a.name == b.name ==> a.category == b.category
  }

  // An accepted token, used as a user agent, is classified as its own entry.
  lemma TokenClassifiesItself(agents: seq<Agent>, a: Agent)
    requires Accepted(agents) && a in agents
    ensures IsAscii(a.token) && ClassifyBot(agents, a.token) == Some(a)
  {
    var t := a.token;
    NormalTokenStays(t);
    TrimNothing(t);
    assert Lower(TrimSpace(t)) == t;
    assert OccursAt(t, t, 0);
    ClassifyBotIsLongest(agents, t);
    var w := ClassifyBot(agents, t);
    assert w.Some?;
    LongestContained(t, w.value.token);
    Text.LessIrreflexive(t);
    assert !Before(w.value, a);
  }

  lemma LongestContained(s: string, t: string)
    requires Contains(s, t)
    ensures |t| <= |s| && (|t| == |s| ==> t == s)
  {
    var i :| 0 <= i <= |s| && OccursAt(s, t, i);
    assert |t| == |s| ==> s[i..i + |t|] == s;
  }

  // Composing hk_ai_bot_category_from_name with hk_ai_bot gives the direct
  // category for every user agent exactly when no name carries two categories.
  lemma CategoryFromNameIsExact(agents: seq<Agent>)
    requires Accepted(agents)
    ensures SameNameSameCategory(agents) <==>
      forall ua: string :: IsAscii(ua) ==>
        HkAiBotCategoryFromName(agents, HkAiBot(agents, Some(ua))) == HkAiBotCategory(agents, Some(ua))
  {
    hide HkAiBot, HkAiBotCategory, HkAiBotCategoryFromName, Accepted;
    if SameNameSameCategory(agents) {
      forall ua: string | IsAscii(ua)
        ensures HkAiBotCategoryFromName(agents, HkAiBot(agents, Some(ua))) == HkAiBotCategory(agents, Some(ua))
      {
        CategoryFromNameAgrees(agents, ua);
      }
    }
    if forall ua: string :: IsAscii(ua) ==>
        HkAiBotCategoryFromName(agents, HkAiBot(agents, Some(ua))) == HkAiBotCategory(agents, Some(ua))
    {
      forall a, b | a in agents && b in agents && a.name == b.name ensures a.category == b.category {
        CategoryOfToken(agents, a);
        CategoryOfToken(agents, b);
      }
    }
  }

  lemma CategoryOfToken(agents: seq<Agent>, a: Agent)
    requires Accepted(agents) && a in agents
    ensures IsAscii(a.token)
    ensures HkAiBot(agents, Some(a.token)) == Some(a.name) && HkAiBotCategory(agents, Some(a.token)) == Some(a.category)
  {
    TokenClassifiesItself(agents, a);
    MacrosAgreeWithClassifier(agents, a.token);
  }

  lemma CategoryFromNameAgrees(agents: seq<Agent>, ua: string)
    requires Accepted(agents) && SameNameSameCategory(agents) && IsAscii(ua)
    ensures HkAiBotCategoryFromName(agents, HkAiBot(agents, Some(ua))) == HkAiBotCategory(agents, Some(ua))
  {
    hide ReadMacro, Statements, FromNameArms, ClassifyBot, HkAiBot, HkAiBotCategory, HkAiBotCategoryFromName;
    var ordered := MatchOrderedAgents(agents);
    MacrosAgreeWithClassifier(agents, ua);
    StatementsReadBack(agents, None, HkAiBot(agents, Some(ua)));
    var r := ClassifyBot(agents, ua);
    if r.Some? {
      SortKeepsUnique(agents);
      ClassifyBotIsLongest(agents, ua);
      var a := r.value;
      assert a in ordered;
      var k := FirstNamed(ordered, a.name);
      FromNameIsFirst(ordered, a.name);
      assert ordered[k] in agents;
    } else {
      NullHasNoCategory(FromNameArms(ordered));
    }
  }

  lemma {:induction false} NullHasNoCategory(arms: seq<Arm>)
    ensures NameCase(arms, None).None?
  {
    if arms != [] { NullHasNoCategory(arms[1..]); }
  }

  lemma {:induction false} FirstNamed(ordered: seq<Agent>, name: string) returns (k: nat)
    requires name in Names(ordered)
    ensures k < |ordered| && ordered[k].name == name && name !in Names(ordered[..k])
  {
    var n := |ordered| - 1;
    assert ordered == ordered[..n] + [ordered[n]];
    if name in Names(ordered[..n]) {
      k := FirstNamed(ordered[..n], name);
      assert ordered[..n][..k] == ordered[..k];
    } else {
      k := n;
    }
  }
}
