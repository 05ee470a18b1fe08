/** The string helpers behind the proxy's configuration: comma separated
    lists, host[:port] entries with a default port of 80, the filter aliases
    of the pipeline section and the two pipelines built from them. A section
    of the configuration file is a map from option name to its text. */
module Config {
  import opened Wrappers
  import opened Text

  /** Why a configuration value could not be read. */
  datatype ConfigError =
    | MalformedHost(host: string)   // two or more colons in a host entry
    | NotAnInteger(text: string)    // the port is not a decimal integer

  /** A host name and a port. */
  datatype Host = Host(name: string, port: int)

  /** Splits on sep and strips each piece when sep occurs in s; otherwise the
      single element is s itself, not stripped. */
  function SplitAndStrip(s: string, sep: char): (r: seq<string>)
    ensures |r| >= 1
    ensures sep !in s ==> r == [s]
  {
    if sep in s then StripAll(Split(s, sep)) else [s]
  }

  /** When sep occurs in s, entry i is piece i between separators, stripped:
      there is one entry per piece, every entry is trimmed and none holds the
      separator. */
  lemma SplitAndStripPieces(s: string, sep: char)
    requires sep in s
    ensures |SplitAndStrip(s, sep)| == Occurrences(s, sep) + 1 == |Split(s, sep)|
    ensures forall i :: 0 <= i < |Split(s, sep)| ==> SplitAndStrip(s, sep)[i] == Strip(Split(s, sep)[i])
    ensures forall i :: 0 <= i < |SplitAndStrip(s, sep)| ==>
      Trimmed(SplitAndStrip(s, sep)[i]) && sep !in SplitAndStrip(s, sep)[i]
  {
    SplitPieces(s, sep);
    var ps := Split(s, sep);
    forall i | 0 <= i < |ps|
      ensures sep !in Strip(ps[i]) && Trimmed(Strip(ps[i]))
    {
      StripKeepsOut(ps[i], sep);
    }
  }

  /** Stripping gives a trimmed text and brings in no character. */
  lemma StripKeepsOut(p: string, c: char)
    requires c !in p
    ensures c !in Strip(p) && Trimmed(Strip(p))
  {
    var a := LeadingSpaces(p);
    StripSpec(p);
    assert Strip(p) == p[a..a + |Strip(p)|];
  }

  /** A list written with the separator followed by any run of whitespace
      (as in "a, b, c") reads back as the list, provided no entry holds the
      separator or has whitespace at its ends. A single entry is written
      without a separator and read back whole. */
  lemma SplitAndStripJoin(parts: seq<string>, sep: char, pad: string)
    requires |parts| >= 1 && AllSpace(pad) && sep !in pad
    requires forall i :: 0 <= i < |parts| ==> sep !in parts[i] && Trimmed(parts[i])
    ensures SplitAndStrip(Join(parts, [sep] + pad), sep) == parts
  {
    var s := Join(parts, [sep] + pad);
    if |parts| == 1 {
      assert s == parts[0];
    } else {
      assert s[|parts[0]|] == sep;
      SplitStripJoin(parts, sep, pad);
    }
  }

  /** A host entry: "host" alone gets port 80, "host:port" needs an integer
      port, and more than one colon is malformed. */
  function HostTuple(s: string): Result<Host, ConfigError> {
    var parts := Split(s, ':');
    if |parts| == 1 then Success(Host(parts[0], 80))
    else if |parts| == 2 then
      match ParseInt(parts[1])
      case Some(p) => Success(Host(parts[0], p))
      case None => Failure(NotAnInteger(parts[1]))
    else Failure(MalformedHost(s))
  }

  /** An entry without a colon is a host on port 80. */
  lemma HostTupleDefaultPort(s: string)
    requires ':' !in s
    ensures HostTuple(s) == Success(Host(s, 80))
  {
    SplitWhole(s, ':');
  }

  /** An entry is malformed exactly when it holds two or more colons. */
  lemma HostTupleMalformed(s: string)
    ensures HostTuple(s).Failure? && HostTuple(s).error.MalformedHost? <==> Occurrences(s, ':') >= 2
  {
    SplitPieces(s, ':');
  }

  /** A host without colons followed by a colon and a rendered port reads
      back as that host and port. */
  lemma HostTupleRoundTrip(h: string, port: int)
    requires ':' !in h
    ensures HostTuple(h + ":" + IntToString(port)) == Success(Host(h, port))
  {
    var p := IntToString(port);
    NumberExcludes(port, ':');
    assert Join([h, p], [':']) == h + ":" + p;
    SplitJoin([h, p], ':');
    IntRoundTrip(port);
  }

  /** HostTuple over every entry, in order; the first entry that fails makes
      the whole list fail with its error. */
  function HostTuples(entries: seq<string>): (r: Result<seq<Host>, ConfigError>)
    ensures r.Success? ==> |r.value| == |entries|
    ensures r.Success? ==> forall i :: 0 <= i < |entries| ==> HostTuple(entries[i]) == Success(r.value[i])
    ensures r.Failure? ==> exists i :: 0 <= i < |entries| && HostTuple(entries[i]) == Failure(r.error)
                                   && forall j :: 0 <= j < i ==> HostTuple(entries[j]).Success?
  {
    if entries == [] then Success([])
    else match HostTuple(entries[0])
      case Failure(e) => Failure(e)
      case Success(t) =>
        match HostTuples(entries[1..])
        case Failure(e) => Failure(e)
        case Success(ts) => Success([t] + ts)
  }

  /** The upstream_hosts option of the routing section. */
  function UpstreamHosts(hosts: string): Result<seq<Host>, ConfigError> {
    HostTuples(SplitAndStrip(hosts, ','))
  }

  /** The rendering of a host in the upstream_hosts option. */
  function HostEntry(h: Host): string {
    h.name + ":" + IntToString(h.port)
  }

  /** A list of hosts written as "name:port, name:port" (any whitespace after
      each comma) reads back as that list. */
  lemma UpstreamHostsRoundTrip(hs: seq<Host>, pad: string)
    requires |hs| >= 1 && AllSpace(pad) && ',' !in pad
    requires forall i :: 0 <= i < |hs| ==>
      ':' !in hs[i].name && ',' !in hs[i].name && (hs[i].name == [] || !IsSpace(hs[i].name[0]))
    ensures UpstreamHosts(Join(seq(|hs|, i requires 0 <= i < |hs| => HostEntry(hs[i])), [','] + pad)) == Success(hs)
  {
    var entries := seq(|hs|, i requires 0 <= i < |hs| => HostEntry(hs[i]));
    forall i | 0 <= i < |hs|
      ensures ',' !in entries[i] && Trimmed(entries[i])
      ensures HostTuple(entries[i]) == Success(hs[i])
    {
      HostTupleRoundTrip(hs[i].name, hs[i].port);
      EntryShape(hs[i]);
    }
    SplitAndStripJoin(entries, ',', pad);
    HostTuplesOf(entries, hs);
  }

  lemma EntryShape(h: Host)
    requires ',' !in h.name && (h.name == [] || !IsSpace(h.name[0]))
    ensures ',' !in HostEntry(h) && Trimmed(HostEntry(h))
  {
    EntryNoComma(h);
    EntryTrimmed(h);
  }

  lemma EntryNoComma(h: Host)
    requires ',' !in h.name
    ensures ',' !in HostEntry(h)
  {
    NumberExcludes(h.port, ',');
    assert HostEntry(h) == h.name + ([':'] + IntToString(h.port));
  }

  lemma EntryTrimmed(h: Host)
    requires h.name == [] || !IsSpace(h.name[0])
    ensures Trimmed(HostEntry(h))
  {
    var p := IntToString(h.port);
    var e := HostEntry(h);
    IntToStringChars(h.port);
    assert e[|e| - 1] == p[|p| - 1];
    assert e[0] == if h.name == [] then ':' else h.name[0];
  }

  lemma {:induction false} HostTuplesOf(entries: seq<string>, hs: seq<Host>)
    requires |entries| == |hs|
    requires forall i :: 0 <= i < |hs| ==> HostTuple(entries[i]) == Success(hs[i])
    ensures HostTuples(entries) == Success(hs)
  {
    if entries != [] {
      HostTuplesOf(entries[1..], hs[1..]);
      assert [hs[0]] + hs[1..] == hs;
    }
  }

  /** plugin_paths: no paths when the option is unset or empty, otherwise the
      comma separated list. */
  function PluginPaths(paths: Option<string>): (r: seq<string>)
    ensures r == [] <==> paths.None? || paths.value == ""
    ensures paths.Some? && paths.value != "" ==> r == SplitAndStrip(paths.value, ',')
  {
    if paths.None? || paths.value == "" then [] else SplitAndStrip(paths.value, ',')
  }

  /** Every option of the pipeline section except upstream and downstream is a
      filter alias, mapped to the filter it names. */
  function FilterDict(section: map<string, string>): (filters: map<string, string>)
    ensures filters.Keys == section.Keys - {"upstream", "downstream"}
    ensures forall a :: a in filters ==> filters[a] == section[a]
  {
    map a | a in section && a != "upstream" && a != "downstream" :: section[a]
  }

  /** The targets of the aliases that are known, in the order listed. */
  function Resolve(aliases: seq<string>, filters: map<string, string>): (r: seq<string>)
    ensures |r| <= |aliases|
  {
    if aliases == [] then []
    else (if aliases[0] in filters then [filters[aliases[0]]] else []) + Resolve(aliases[1..], filters)
  }

  /** Resolution works list by list: the targets of a concatenation are the
      targets of the first list followed by those of the second. */
  lemma {:induction false} ResolveAppend(xs: seq<string>, ys: seq<string>, filters: map<string, string>)
    ensures Resolve(xs + ys, filters) == Resolve(xs, filters) + Resolve(ys, filters)
  {
    if xs != [] {
      assert (xs + ys)[0] == xs[0];
      assert (xs + ys)[1..] == xs[1..] + ys;
      ResolveAppend(xs[1..], ys, filters);
    } else {
      assert xs + ys == ys;
    }
  }

  /** When every alias is known, each one yields its target at its own place;
      an alias that is not known yields nothing. */
  lemma {:induction false} ResolveKnown(aliases: seq<string>, filters: map<string, string>)
    ensures (forall i :: 0 <= i < |aliases| ==> aliases[i] in filters) ==>
      |Resolve(aliases, filters)| == |aliases| &&
      forall i :: 0 <= i < |aliases| ==> Resolve(aliases, filters)[i] == filters[aliases[i]]
    ensures (forall i :: 0 <= i < |aliases| ==> aliases[i] !in filters) ==> Resolve(aliases, filters) == []
  {
    if aliases != [] {
      ResolveKnown(aliases[1..], filters);
    }
  }

  /** The upstream or downstream pipeline: nothing when the option is unset or
      empty, otherwise the targets of its known aliases in the listed order. */
  function PipelineFor(section: map<string, string>, stream: string): (r: seq<string>)
    ensures stream !in section || section[stream] == "" ==> r == []
  {
    if stream !in section || section[stream] == "" then []
    else Resolve(SplitAndStrip(section[stream], ','), FilterDict(section))
  }

  /** Every filter of a pipeline is the target of an alias, and neither the
      upstream nor the downstream option is ever taken for an alias. */
  lemma PipelineTargets(section: map<string, string>, stream: string)
    ensures forall t :: t in PipelineFor(section, stream) ==>
      exists a :: a in section && a != "upstream" && a != "downstream" && section[a] == t
  {
    if stream in section && section[stream] != "" {
      ResolveTargets(SplitAndStrip(section[stream], ','), FilterDict(section));
    }
  }

  lemma {:induction false} ResolveTargets(aliases: seq<string>, filters: map<string, string>)
    ensures forall t :: t in Resolve(aliases, filters) ==> exists a :: a in filters && filters[a] == t
  {
    if aliases != [] {
      ResolveTargets(aliases[1..], filters);
    }
  }
}
