/** The log console (components/admin/AdminLogs.tsx): the level filter and
    the colour and icon given to each level. */
module AdminLogs {
  import opened Records
  import Lists

  /** The filter buttons: everything, or one level. */
  datatype LevelFilter = All | Only(level: LogLevel)

  function Shown(filter: LevelFilter): LogEntry -> bool {
    (e: LogEntry) => filter.All? || e.level == filter.level
  }

  /** `filteredLogs`. */
  function FilterLogs(logs: seq<LogEntry>, filter: LevelFilter): (r: seq<LogEntry>)
    ensures filter.Only? ==> forall i :: 0 <= i < |r| ==> r[i].level == filter.level
  {
    Lists.Filter(logs, Shown(filter))
  }

  /** 'ALL' shows every log unchanged. */
  lemma AllKeepsEverything(logs: seq<LogEntry>)
    ensures FilterLogs(logs, All) == logs
  {
    Lists.FilterKeepsAll(logs, Shown(All));
  }

  /** A level filter shows exactly the logs of that level, in their
      original order: the result is the subsequence at the positions whose
      level matches, and at no other. */
  lemma OnlyThatLevel(logs: seq<LogEntry>, level: LogLevel) returns (idx: seq<nat>)
    ensures var r := FilterLogs(logs, Only(level));
      && |idx| == |r|
      && (forall k :: 0 <= k < |idx| ==> idx[k] < |logs| && r[k] == logs[idx[k]])
      && (forall k, l :: 0 <= k < l < |idx| ==> idx[k] < idx[l])
      && (forall i :: 0 <= i < |logs| ==> (logs[i].level == level <==> i in idx))
  {
    idx := Lists.FilterPositions(logs, Shown(Only(level)));
  }

  const Red: string := "text-red-500"
  const Orange: string := "text-orange-500"
  const Blue: string := "text-blue-500"
  const Grey: string := "text-gray-500"

  function LevelColor(level: LogLevel): string {
    match level
    case ERROR => Red
    case WARN => Orange
    case INFO => Blue
    case _ => Grey
  }

  /** Red, orange and blue for errors, warnings and information, all
      distinct; every other level, CRITICAL among them, is grey. */
  lemma LevelColorSpec(level: LogLevel)
    ensures LevelColor(level) == "text-gray-500" <==> level !in {ERROR, WARN, INFO}
    ensures LevelColor(ERROR) == "text-red-500" && LevelColor(WARN) == "text-orange-500"
      && LevelColor(INFO) == "text-blue-500" && LevelColor(CRITICAL) == "text-gray-500"
    ensures forall a: LogLevel, b: LogLevel :: a in {ERROR, WARN, INFO} && b in {ERROR, WARN, INFO} ==>
      (LevelColor(a) == LevelColor(b) <==> a == b)
  {
    assert Red[5] == 'r' && Orange[5] == 'o' && Blue[5] == 'b' && Grey[5] == 'g';
  }

  datatype Icon = AlertTriangle | InfoIcon | CheckCircle

  function LevelIcon(level: LogLevel): Icon {
    match level
    case ERROR => AlertTriangle
    case WARN => AlertTriangle
    case INFO => InfoIcon
    case _ => CheckCircle
  }

  /** Errors and warnings share the warning triangle, information has its
      own icon, and anything else gets the check mark. */
  lemma LevelIconSpec(level: LogLevel)
    ensures LevelIcon(level) == AlertTriangle <==> level == ERROR || level == WARN
    ensures LevelIcon(level) == InfoIcon <==> level == INFO
    ensures LevelIcon(level) == CheckCircle <==> level == CRITICAL
  {
  }
}
