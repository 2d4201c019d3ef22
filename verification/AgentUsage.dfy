/** Token counts as agents report them and as the program stores them. */
module AgentUsage {
  import opened Prelude

  /** A property of a parsed JSON object that should be a number. */
  datatype Field = Undefined | NotANumber | Number(value: real)

  datatype Usage = Usage(input: real, output: real, cacheRead: real, cacheCreation: real)

  const NO_USAGE := Usage(0.0, 0.0, 0.0, 0.0)

  /** A required count: a finite number, not negative. */
  predicate IsCount(f: Field) {
    f.Number? && f.value >= 0.0
  }

  predicate IsOptionalCount(f: Field) {
    f.Undefined? || IsCount(f)
  }

  function CountOr0(f: Field): real {
    if f.Number? then f.value else 0.0
  }

  function Add(a: Usage, b: Usage): Usage {
    Usage(a.input + b.input, a.output + b.output, a.cacheRead + b.cacheRead, a.cacheCreation + b.cacheCreation)
  }

  function Total(u: Usage): real { u.input + u.output + u.cacheRead + u.cacheCreation }
}
