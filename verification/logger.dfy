/** The runner's logging level: its printed name and the parser that reads
    it back from a command-line argument. */
module Logger {
  import opened Wrappers

  datatype LogLevel = Debug | Info | Warn | Fail

  const InvalidLevel := "Invalid logging level"

  /** The names a level is written as. */
  const Names: set<string> := {"debug", "info", "warn", "fail"}

  /** `Display`: each level's lower-case name. */
  function Show(level: LogLevel): (name: string)
    ensures name in Names
    ensures forall i :: 0 <= i < |name| ==> 'a' <= name[i] <= 'z'
  {
    match level
    case Debug => "debug"
    case Info => "info"
    case Warn => "warn"
    case Fail => "fail"
  }

  /** `FromStr`: exactly the four names, compared case-sensitively. */
  function Parse(s: string): (r: Result<LogLevel>)
    ensures r.Err? <==> s !in Names
    ensures r.Err? ==> r.error == InvalidLevel
  {
    match s
    case "debug" => Ok(Debug)
    case "info" => Ok(Info)
    case "warn" => Ok(Warn)
    case "fail" => Ok(Fail)
    case _ => Err(InvalidLevel)
  }

  /** Different levels print differently. */
  lemma ShowInjective(a: LogLevel, b: LogLevel)
    ensures Show(a) == Show(b) ==> a == b
  {
  }

  /** Parsing a printed level gives the level back. */
  lemma ParseShow(level: LogLevel)
    ensures Parse(Show(level)) == Ok(level)
  {
  }

  /** A string that parses is exactly the printed form of what it parses to. */
  lemma ShowParse(s: string, level: LogLevel)
    ensures Parse(s) == Ok(level) <==> s == Show(level)
  {
  }
}
