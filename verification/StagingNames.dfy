/** Names that carry a PID: staging directories and half-written temporary files. */
module StagingNames {
  import opened Options
  import opened Text
  import opened Decimals

  /** `{runner_name}-{version}-{pid}`. */
  function StagingName(runner: string, version: string, pid: nat): string {
    runner + "-" + version + "-" + Decimal(pid)
  }

  /** `parse_staging_dir_suffix`. */
  function ParseStagingDirSuffix(name: string): Option<int> {
    match RSplitOnce(name, '-')
    case None => None
    case Some(parts) => ParseI32(parts.1)
  }

  /** The PID comes back whatever the runner and the version are called, if it fits an `i32`. A larger
      one makes the directory unrecognisable, so that it is never collected. */
  lemma StagingNameParses(runner: string, version: string, pid: nat)
    ensures StagingName(runner, version, pid) == runner + "-" + version + "-" + Decimal(pid)
    ensures ParseStagingDirSuffix(StagingName(runner, version, pid)) == if pid <= I32_MAX then Some(pid) else None
  {
    I32RoundTrip(pid);
    assert '-' !in Decimal(pid);
    var head := runner + "-" + version;
    assert StagingName(runner, version, pid) == head + ['-'] + Decimal(pid);
    RSplitOnceInverse(head, '-', Decimal(pid));
  }

  /** `.{final_name}.tmp.{pid}.{counter}`. */
  function TempName(name: string, pid: nat, counter: nat): string {
    "." + name + ".tmp." + Decimal(pid) + "." + Decimal(counter)
  }

  /** `parse_temp_file_suffix`. */
  function ParseTempFileSuffix(name: string): Option<(nat, nat)> {
    if name == "" || name[0] != '.' then None
    else
      match RSplitOnce(name, '.')
      case None => None
      case Some(outer) =>
        match ParseUnsigned(outer.1, U64_MAX)
        case None => None
        case Some(counter) =>
          match RSplitOnce(outer.0, '.')
          case None => None
          case Some(inner) =>
            match ParseUnsigned(inner.1, U32_MAX)
            case None => None
            case Some(pid) => if EndsWith(inner.0, ".tmp") then Some((pid, counter)) else None
  }

  lemma TempNameParses(name: string, pid: nat, counter: nat)
    requires pid <= U32_MAX && counter <= U64_MAX
    ensures TempName(name, pid, counter) == "." + name + ".tmp." + Decimal(pid) + "." + Decimal(counter)
    ensures ParseTempFileSuffix(TempName(name, pid, counter)) == Some((pid, counter))
  {
    hide ParseUnsigned, RSplitOnce, Decimal;
    UnsignedRoundTrip(pid, U32_MAX);
    UnsignedRoundTrip(counter, U64_MAX);
    var head := "." + name + ".tmp";
    var inner := head + ['.'] + Decimal(pid);
    assert TempName(name, pid, counter) == inner + ['.'] + Decimal(counter);
    NoDotIn(counter);
    NoDotIn(pid);
    RSplitOnceInverse(inner, '.', Decimal(counter));
    RSplitOnceInverse(head, '.', Decimal(pid));
    assert head[|head| - 4..] == ".tmp";
  }

  lemma NoDotIn(n: nat)
    ensures '.' !in Decimal(n)
  {}

  /** Only names of that shape are ever taken for temporary files. */
  lemma OnlyTempNamesParse(name: string)
    requires ParseTempFileSuffix(name).Some?
    ensures exists head, pid, counter ::
      name == head + ".tmp" + "." + pid + "." + counter && ParseTempFileSuffix(name) == Numbers(pid, counter)
  {
    var outer := RSplitOnce(name, '.').value;
    var inner := RSplitOnce(outer.0, '.').value;
    RSplitOnceJoins(name, '.');
    RSplitOnceJoins(outer.0, '.');
    var head := inner.0[..|inner.0| - 4];
    assert inner.0 == head + ".tmp";
    assert name == Shape(head, inner.1, outer.1);
    assert ParseTempFileSuffix(name) == Numbers(inner.1, outer.1);
  }

  function Shape(head: string, pid: string, counter: string): string {
    head + ".tmp" + "." + pid + "." + counter
  }

  function Numbers(pid: string, counter: string): Option<(nat, nat)> {
    var p, c := ParseUnsigned(pid, U32_MAX), ParseUnsigned(counter, U64_MAX);
    if p.Some? && c.Some? then Some((p.value, c.value)) else None
  }
}
