/**
 The pattern tables of lingmemory/rule_matcher.py and lingmemory/distiller.py, and what the rule
 store promises for them.
 */
module RuleTables {
  import opened Base
  import opened RecordStore
  import opened RuleStore
  import opened RuleLaws

  /** Error messages in lower case. */
  const ErrorEntries: seq<Entry> := [
    Entry("permission denied", "文件/目录权限不足时，先检查owner和权限位，不要直接chmod 777", "debugging"),
    Entry("address already in use", "端口被占用时，先查谁在用（ss/lsof），不要盲目换端口", "debugging"),
    Entry("modulenotfound", "ModuleNotFoundError时先检查virtualenv是否激活、pip install路径是否正确", "debugging"),
    Entry("syntaxerror", "Python语法/缩进错误时，检查tab和space混用、缺少冒号、括号不匹配", "debugging"),
    Entry("indentationerror", "Python语法/缩进错误时，检查tab和space混用、缺少冒号、括号不匹配", "debugging"),
    Entry("keyerror", "KeyError时用dict.get(key, default)替代直接访问，防御性编程", "debugging"),
    Entry("attributeerror", "AttributeError时检查对象是否None、类型是否正确、方法名是否拼写正确", "debugging"),
    Entry("typeerror", "TypeError时检查参数类型、参数数量、可变/不可变类型混用", "debugging"),
    Entry("filenotfound", "FileNotFoundError时先检查路径是否用绝对路径、文件名大小写、~是否展开", "debugging"),
    Entry("connection refused", "Connection refused时检查服务是否启动、端口是否正确、防火墙是否放行", "debugging"),
    Entry("database is locked", "SQLite database locked时启用WAL模式+busy_timeout，不要用长事务", "debugging"),
    Entry("timeout", "超时错误时检查网络连通性、服务响应时间、是否需要增加timeout参数", "debugging"),
    Entry("unicodedecode", "Unicode错误时统一用utf-8编码，open()加encoding='utf-8'参数", "debugging")
  ]

  /** Regular expressions over any code. */
  const CodeEntries: seq<Entry> := [
    Entry(@"class\s+\w+(?:API|Factory|Manager)", "用工厂/API/Manager类封装复杂逻辑", "architecture"),
    Entry(@"\.use_\w+\(", "链式调用注入插片（插件模式）", "architecture"),
    Entry("__(?:enter|exit)__", "实现上下文管理器(with语句)", "pattern"),
    Entry(@"(?:create|transition|query)\s*\(", "2T3A核心操作——create/transition/query", "architecture"),
    Entry(@"class\s+\w+:", "封装为类，面向对象设计", "pattern"),
    Entry(@"def\s+\w+\(.*,\s*\*\*kwargs", "用**kwargs接受可选参数，保持接口稳定", "pattern"),
    Entry(@"if\s+None\s*(?:or|is None)", "空值检查用`if x is None`不用`if not x`", "pattern"),
    Entry(@"def \w+\(.*,\s*\w+\s*=\s*None.*\)", "函数参数默认值用None+内部赋值", "pattern"),
    Entry(@"try:.*except.*:?\s*pass", "异常不能吞——至少记录日志", "pattern"),
    Entry(@"with\s+.*:", "资源管理用with语句自动释放", "pattern"),
    Entry(@"\.get\(\w+,\s*default", "dict.get(key, default)替代直接访问", "pattern"),
    Entry("@(?:class|static)method", "用@classmethod/@staticmethod明确方法类型", "pattern"),
    Entry(@"\n\s*__init__\s*\(", "构造函数只做赋值，不做业务逻辑", "architecture"),
    Entry(@"(?:query|execute)\s*\(.*\)\s*$", "数据库操作单独成行，不嵌在表达式里", "pattern")
  ]

  /** Regular expressions over Python code. */
  const PythonEntries: seq<Entry> := [
    Entry(@"from\s+\w+\s+import\s+\*", "禁止from xxx import *——明确导入名字", "pattern"),
    Entry(@"print\s*\(", "用logger替代print，log级别区分info/debug/error", "pattern"),
    Entry(@"return\s+.*\n\s*pass", "return后不需要pass", "pattern")
  ]

  /** Regular expressions over Go code. */
  const GoEntries: seq<Entry> := [
    Entry(@"if\s+err\s*!=\s*nil\s*\{", "Go错误处理的标准模式", "pattern"),
    Entry(@"defer\s+", "资源释放用defer", "pattern")
  ]

  const AllEntries := Tables(ErrorEntries, CodeEntries, map["python" := PythonEntries, "go" := GoEntries])

  function RulesIn(entries: seq<Entry>): set<string> { set e | e in entries :: e.rule }

  /** Two error patterns share one rule, so thirteen patterns name at most twelve rules. */
  lemma ErrorsShareARule()
    ensures |RulesIn(ErrorEntries)| <= 12
  {
    var others := ErrorEntries[..4] + ErrorEntries[5..];
    assert ErrorEntries[3].rule == ErrorEntries[4].rule && others[3] == ErrorEntries[3];
    assert forall i :: 0 <= i < 13 ==>
             ErrorEntries[i] == if i < 4 then others[i] else if i == 4 then ErrorEntries[4] else others[i - 1];
    assert RulesIn(ErrorEntries) == RulesIn(others);
    RulesOf(others);
  }

  /** At most 31 rule texts exist, far below both query limits. */
  lemma TablesAreSmall()
    ensures |Texts(AllEntries)| <= 31 < DistillLimit < ExtractLimit
  {
    ErrorsShareARule();
    RulesOf(CodeEntries);
    RulesOf(PythonEntries);
    RulesOf(GoEntries);
    AllTexts();
  }

  lemma AllTexts()
    ensures Texts(AllEntries)
            == RulesIn(ErrorEntries) + RulesIn(CodeEntries) + RulesIn(PythonEntries) + RulesIn(GoEntries)
  {
    hide ErrorEntries, CodeEntries, PythonEntries, GoEntries;
    assert AllEntries.byLanguage["python"] == PythonEntries && AllEntries.byLanguage["go"] == GoEntries;
    assert forall l :: l in AllEntries.byLanguage <==> l == "python" || l == "go";
  }

  /**
   With these tables, one record per rule, with exactly the offered evidence, needs no assumption
   about their size.
   */
  lemma RulesStayUnique(reg: Registry, ops: seq<Op>, i: nat, j: nat)
    requires RuleLifecycle(reg, AllEntries) && Legal(reg, AllEntries, Start, ops)
    requires i < |Run(reg, Start, ops).store.rows| && j < |Run(reg, Start, ops).store.rows|
    requires IsRule(Run(reg, Start, ops).store.rows[i]) && IsRule(Run(reg, Start, ops).store.rows[j])
    ensures var w := Run(reg, Start, ops);
            var rec := w.store.rows[i].rec;
            && (RuleText(rec) == RuleText(w.store.rows[j].rec) ==> i == j)
            && RuleText(rec) in w.offered && ToSet(Evidence(rec)) == w.offered[RuleText(rec)]
               && NoDuplicates(Evidence(rec))
            && (rec.state == "validated" <==> |w.offered[RuleText(rec)]| >= Enough)
            && (rec.state == "hypothesized" <==> |w.offered[RuleText(rec)]| < Enough)
  {
    TablesAreSmall();
    OneRecordPerRule(reg, AllEntries, ops, i, j);
  }
}
