/** One pass of `collectMetrics` over the output of `docker stats`: which containers are saved
    (apps/monitoring/containers/monitor.go:113-248, apps/monitoring/containers/config.go:31-61). */
module ContainerScan {
  import opened Ordering
  import opened Strings

  datatype Container = Container(id: string, name: string)
  datatype Config = Config(included: seq<string>, excluded: seq<string>)

  /** `json.Unmarshal` of one line; None for an error. */
  type Parser = string -> Option<Container>

  // --- Which containers are monitored -------------------------------------------

  predicate ShouldMonitor(config: Option<Config>, name: string) {
    && config.Some?
    && (forall e :: e in config.value.excluded ==> !Contains(name, e))
    && (config.value.included == [] || exists i :: i in config.value.included && Contains(name, i))
  }

  /** One of the entries occurs in the name. */
  ghost predicate Matches(entries: seq<string>, name: string) {
    exists e, k: nat :: e in entries && OccursAt(name, e, k)
  }

  lemma MatchesExact(entries: seq<string>, name: string)
    ensures Matches(entries, name) <==> exists e :: e in entries && Contains(name, e)
  {
    if e, k: nat :| e in entries && OccursAt(name, e, k) { ContainsOccurrence(name, e); }
    if e :| e in entries && Contains(name, e) {
      ContainsOccurrence(name, e);
      var k: nat :| OccursAt(name, e, k);
    }
  }

  /** Monitored is what no exclusion matches, and some inclusion does if there are any; nothing without a
      configuration. */
  ghost predicate Monitored(config: Option<Config>, name: string) {
    && config.Some? && !Matches(config.value.excluded, name)
    && (config.value.included != [] ==> Matches(config.value.included, name))
  }

  lemma MonitoredExact(config: Option<Config>, name: string)
    ensures ShouldMonitor(config, name) <==> Monitored(config, name)
  {
    if config.Some? {
      MatchesExact(config.value.excluded, name);
      MatchesExact(config.value.included, name);
    }
  }

  method ShouldMonitorContainer(config: Option<Config>, name: string) returns (b: bool)
    ensures b == ShouldMonitor(config, name)
    ensures b <==> Monitored(config, name)
  {
    MonitoredExact(config, name);
    if config.None? { return false; }
    var excluded, included := config.value.excluded, config.value.included;
    for k := 0 to |excluded|
      invariant forall i :: 0 <= i < k ==> !Contains(name, excluded[i])
    {
      if Contains(name, excluded[k]) { return false; }
    }
    if |included| > 0 {
      for k := 0 to |included|
        invariant forall i :: 0 <= i < k ==> !Contains(name, included[i])
      {
        if Contains(name, included[k]) { return true; }
      }
      return false;
    }
    return true;
  }

  // --- Service names ------------------------------------------------------------

  function GetServiceName(containerName: string): string {
    var name := TrimPrefix(containerName, "/");
    var parts := Split(name, '-');
    if |parts| > 1 then Join(parts[..|parts| - 1], '-') else name
  }

  /** Splitting at hyphens, dropping the last part and joining equals cutting at the last hyphen,
      after one leading slash is gone; a name without a hyphen stays whole. */
  lemma ServiceNameCutsAtLastHyphen(containerName: string)
    ensures var name := if containerName != "" && containerName[0] == '/' then containerName[1..] else containerName;
            var service := GetServiceName(containerName);
            && ('-' !in name ==> service == name)
            && ('-' in name ==> exists last :: '-' !in last && name == service + "-" + last)
  {
    var name := TrimPrefix(containerName, "/");
    SplitPlain(name, '-');
    if '-' in name {
      var service, last := CutAtLast(name, '-');
      SplitAtLast(service, '-', last);
      JoinSplit(service, '-');
      assert (Split(service, '-') + [last])[..|Split(service, '-')|] == Split(service, '-');
      assert name == service + "-" + last;
    }
  }

  // --- The scan -----------------------------------------------------------------

  /** The line gives the container `c`, and it is monitored. */
  ghost predicate Gives(line: string, parse: Parser, config: Option<Config>, c: Container) {
    line != "" && parse(line) == Some(c) && Monitored(config, c.name)
  }

  /** One of the first `n` lines gives a container of the service. */
  ghost predicate Seen(lines: seq<string>, parse: Parser, config: Option<Config>, n: nat, service: string)
    requires n <= |lines|
  {
    exists j, c :: 0 <= j < n && Gives(lines[j], parse, config, c) && GetServiceName(c.name) == service
  }

  /** `attempts` are, in order, the containers that the first `n` lines give and that no earlier line has a container of
      the same service with; `at` are their lines. */
  ghost predicate FirstPerService(lines: seq<string>, parse: Parser, config: Option<Config>, n: nat,
                                  attempts: seq<Container>, at: seq<nat>)
    requires n <= |lines|
  {
    && |at| == |attempts|
    && (forall k :: 0 <= k < |at| ==> at[k] < n && Gives(lines[at[k]], parse, config, attempts[k]))
    && (forall j, k :: 0 <= j < k < |at| ==> at[j] < at[k])
    && (forall i: nat, c :: i < n && Gives(lines[i], parse, config, c) ==>
          (i in at <==> !Seen(lines, parse, config, i, GetServiceName(c.name))))
  }

  lemma SkipLine(lines: seq<string>, parse: Parser, config: Option<Config>, n: nat,
                 attempts: seq<Container>, at: seq<nat>)
    requires n < |lines| && FirstPerService(lines, parse, config, n, attempts, at)
    requires forall c :: Gives(lines[n], parse, config, c) ==> Seen(lines, parse, config, n, GetServiceName(c.name))
    ensures FirstPerService(lines, parse, config, n + 1, attempts, at)
  {
    assert n !in at;
  }

  lemma TakeLine(lines: seq<string>, parse: Parser, config: Option<Config>, n: nat,
                 attempts: seq<Container>, at: seq<nat>, c: Container)
    requires n < |lines| && FirstPerService(lines, parse, config, n, attempts, at)
    requires Gives(lines[n], parse, config, c) && !Seen(lines, parse, config, n, GetServiceName(c.name))
    ensures FirstPerService(lines, parse, config, n + 1, attempts + [c], at + [n])
  {
    assert forall i :: i in at + [n] <==> i in at || i == n;
  }

  lemma SeenNext(lines: seq<string>, parse: Parser, config: Option<Config>, n: nat, service: string)
    requires n < |lines|
    ensures Seen(lines, parse, config, n + 1, service)
            <==> Seen(lines, parse, config, n, service)
                 || exists c :: Gives(lines[n], parse, config, c) && GetServiceName(c.name) == service
  {
    if j, c :| 0 <= j < n + 1 && Gives(lines[j], parse, config, c) && GetServiceName(c.name) == service {
      if j < n { assert Seen(lines, parse, config, n, service); }
    }
  }

  ghost predicate Attempted(lines: seq<string>, parse: Parser, config: Option<Config>, attempts: seq<Container>) {
    exists at :: FirstPerService(lines, parse, config, |lines|, attempts, at)
  }

  /** The loop of `collectMetrics`. `attempts` are the containers for which a save is attempted; whether the save
      fails makes no difference. One attempt is made for each service, for its first monitored container. */
  method Scan(output: string, parse: Parser, config: Option<Config>) returns (attempts: seq<Container>)
    ensures Attempted(Split(output, '\n'), parse, config, attempts)
  {
    attempts := [];
    ghost var at: seq<nat> := [];
    var lines := Split(output, '\n');
    if output == "" {
      assert FirstPerService(lines, parse, config, |lines|, attempts, at);
      return;
    }
    var seenServices: set<string> := {};
    for n := 0 to |lines|
      invariant FirstPerService(lines, parse, config, n, attempts, at)
      invariant forall s :: s in seenServices <==> Seen(lines, parse, config, n, s)
    {
      forall s { SeenNext(lines, parse, config, n, s); }
      var line := lines[n];
      if line == "" { SkipLine(lines, parse, config, n, attempts, at); continue; }
      var parsed := parse(line);
      if parsed.None? { SkipLine(lines, parse, config, n, attempts, at); continue; }
      var container := parsed.value;
      var monitored := ShouldMonitorContainer(config, container.name);
      if !monitored { SkipLine(lines, parse, config, n, attempts, at); continue; }
      var serviceName := GetServiceName(container.name);
      if serviceName in seenServices { SkipLine(lines, parse, config, n, attempts, at); continue; }
      TakeLine(lines, parse, config, n, attempts, at, container);
      seenServices := seenServices + {serviceName};
      attempts, at := attempts + [container], at + [n];
    }
    assert FirstPerService(lines, parse, config, |lines|, attempts, at);
  }

  /** So the attempts are for distinct services, and every service that some line gives a monitored container of gets
      one. */
  lemma OnePerService(lines: seq<string>, parse: Parser, config: Option<Config>, attempts: seq<Container>, at: seq<nat>)
    requires FirstPerService(lines, parse, config, |lines|, attempts, at)
    ensures forall j, k :: 0 <= j < k < |attempts| ==>
              GetServiceName(attempts[j].name) != GetServiceName(attempts[k].name)
    ensures forall s :: Seen(lines, parse, config, |lines|, s)
              <==> exists k :: 0 <= k < |attempts| && GetServiceName(attempts[k].name) == s
  {
    forall j, k | 0 <= j < k < |attempts| ensures GetServiceName(attempts[j].name) != GetServiceName(attempts[k].name) {
      assert at[k] in at && Gives(lines[at[k]], parse, config, attempts[k]);
      assert Gives(lines[at[j]], parse, config, attempts[j]);
    }
    forall s ensures Seen(lines, parse, config, |lines|, s)
                     <==> exists k :: 0 <= k < |attempts| && GetServiceName(attempts[k].name) == s
    {
      if Seen(lines, parse, config, |lines|, s) {
        var i, c := FirstLineOf(lines, parse, config, |lines|, s);
        assert i in at;
        var k :| 0 <= k < |at| && at[k] == i;
        assert Gives(lines[at[k]], parse, config, attempts[k]);
      }
      if k :| 0 <= k < |attempts| && GetServiceName(attempts[k].name) == s {
        assert Gives(lines[at[k]], parse, config, attempts[k]);
      }
    }
  }

  lemma {:induction false} FirstLineOf(lines: seq<string>, parse: Parser, config: Option<Config>, n: nat, s: string)
    returns (i: nat, c: Container)
    requires n <= |lines| && Seen(lines, parse, config, n, s)
    ensures i < n && Gives(lines[i], parse, config, c) && GetServiceName(c.name) == s
    ensures !Seen(lines, parse, config, i, s)
  {
    var j: nat, d :| j < n && Gives(lines[j], parse, config, d) && GetServiceName(d.name) == s;
    if Seen(lines, parse, config, j, s) {
      i, c := FirstLineOf(lines, parse, config, j, s);
    } else {
      i, c := j, d;
    }
  }

  // --- Number and unit of a token -----------------------------------------------

  const NUMBER := "0123456789."
  const MEMORY_CUTSET := "MiBGiB"

  /** The text read as the number and the text kept as the unit of a token such as 12.5MiB. */
  function NumberPart(token: string, cutset: string): string { TrimRight(token, cutset) }

  function UnitPart(token: string): string { TrimLeft(token, NUMBER) }

  lemma NumberCharacter(c: char)
    ensures c in NUMBER <==> IsDigit(c) || c == '.'
  {
    assert forall k :: 0 <= k < |NUMBER| ==> IsDigit(NUMBER[k]) || NUMBER[k] == '.';
  }

  /** The unit is what follows the leading digits and dots; the number is what is in front of the trailing characters of
      the cutset. */
  lemma PartsOfToken(token: string, cutset: string)
    ensures var r := UnitPart(token);
            && |r| <= |token| && token[|token| - |r|..] == r && (r != "" ==> !IsDigit(r[0]) && r[0] != '.')
            && forall i :: 0 <= i < |token| - |r| ==> IsDigit(token[i]) || token[i] == '.'
    ensures var l := NumberPart(token, cutset);
            && l <= token && (l != "" ==> l[|l| - 1] !in cutset)
            && forall i :: |l| <= i < |token| ==> token[i] in cutset
  {
    TrimLeftSplits(token, NUMBER);
    TrimRightSplits(token, cutset);
    var l, r := NumberPart(token, cutset), UnitPart(token);
    forall i | 0 <= i < |token| - |r| ensures IsDigit(token[i]) || token[i] == '.' {
      assert token[..|token| - |r|][i] == token[i] && token[i] in NUMBER;
      NumberCharacter(token[i]);
    }
    forall i | |l| <= i < |token| ensures token[i] in cutset { assert token[i] in token[|l|..]; }
  }

  /** Number and unit put together give the token back exactly when every character behind the leading digits and
      dots is in the cutset. Units with other characters, such as the K of KiB for memory, leak into the number. */
  lemma TokenSplitIsLossless(token: string, cutset: string)
    requires forall c :: c in cutset ==> c !in NUMBER
    ensures NumberPart(token, cutset) + UnitPart(token) == token <==> forall c :: c in UnitPart(token) ==> c in cutset
  {
    var l, r := NumberPart(token, cutset), UnitPart(token);
    TrimLeftSplits(token, NUMBER);
    TrimRightSplits(token, cutset);
    var number := token[..|token| - |r|];
    assert token == number + r;
    if forall c :: c in r ==> c in cutset {
      if number != "" { assert number[|number| - 1] in number; }
      TrimRightOf(number, r, cutset);
    }
    if l + r == token { assert token[|l|..] == r; }
  }

  /** MiB and GiB split cleanly into number and unit; of KiB the K stays with the number. */
  lemma MemoryUnits(number: string)
    requires number != "" && forall c :: c in number ==> IsDigit(c) || c == '.'
    ensures NumberPart(number + "MiB", MEMORY_CUTSET) == number && UnitPart(number + "MiB") == "MiB"
    ensures NumberPart(number + "GiB", MEMORY_CUTSET) == number && UnitPart(number + "GiB") == "GiB"
    ensures NumberPart(number + "KiB", MEMORY_CUTSET) == number + "K" && UnitPart(number + "KiB") == "KiB"
  {
    assert number[|number| - 1] in number;
    TrimRightOf(number, "MiB", MEMORY_CUTSET);
    TrimLeftOf(number, "MiB", NUMBER);
    TrimRightOf(number, "GiB", MEMORY_CUTSET);
    TrimLeftOf(number, "GiB", NUMBER);
    assert number + "KiB" == number + "K" + "iB";
    TrimRightOf(number + "K", "iB", MEMORY_CUTSET);
    TrimLeftOf(number, "KiB", NUMBER);
  }
}
