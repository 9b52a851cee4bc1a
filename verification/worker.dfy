/** The pipeline of worker.py around the decision logic: the handler wired
    to `UrlProcessor.process`, one file-system event at a time, and the
    command-line defaults. The machine is reduced to the file contents by
    path and the browser tabs opened so far. */
module Worker {
  import opened Base
  import opened Template
  import opened LinkFile
  import opened History

  /** Everything the worker reads or changes: file contents by path and the
      URLs opened in the browser, oldest first. */
  datatype World = World(files: map<string, string>, tabs: seq<string>)

  /** `UrlProcessor`: the history file path, `None` when history is off. */
  datatype Processor = Processor(historyPath: Option<string>)

  /** The handler's `on_url_found`: the default no-op, or a processor's
      `process`. */
  datatype Callback = Ignore | Process(processor: Processor)

  /** `HtmlHandler`: the content template, whether the name filter ignores
      letter case, the URL check (`validators.url`), and the callback. */
  datatype Handler = Handler(
    contentRegex: ContentRegex,
    ignoreCase: bool,
    isUrl: string -> bool,
    onUrlFound: Callback)

  /** `HtmlHandler(on_url_found)`: `CONTENT_REGEX`, the watcher's
      case-insensitive name filter, and the no-op callback when none is
      given. */
  function NewHtmlHandler(onUrlFound: Option<Callback>, isUrl: string -> bool): (h: Handler)
    ensures h.contentRegex == ContentTemplate && h.ignoreCase && h.isUrl == isUrl
    ensures onUrlFound.None? ==> h.onUrlFound == Ignore
    ensures onUrlFound.Some? ==> h.onUrlFound == onUrlFound.value
  {
    ContentTemplateShaped();
    var cb := if onUrlFound.Some? then onUrlFound.value else Ignore;
    Handler(ContentTemplate, true, isUrl, cb)
  }

  /** What one step did: the new world, each callback invocation (the URL
      and the clock reading at that moment) and the exception that escaped,
      if any. */
  datatype Effect = Effect(world: World, calls: seq<Entry>, raised: Option<Fault>)

  /** The URLs of the callback invocations, in order. */
  function UrlsOf(calls: seq<Entry>): (r: seq<string>)
    ensures |r| == |calls|
    ensures forall k :: 0 <= k < |calls| ==> r[k] == calls[k].url
  {
    if |calls| == 0 then [] else [calls[0].url] + UrlsOf(calls[1..])
  }

  /** `UrlProcessor.process`: the tab is opened first; then, when history
      is on, the history file gets the new line on top under the lock. */
  function ProcessUrl(p: Processor, w: World, url: string, now: nat): (r: (World, Option<Fault>))
    ensures r.0.tabs == w.tabs + [url]
    ensures p.historyPath.None? ==> r.0.files == w.files && r.1.None?
    ensures r.1.Some? <==> p.historyPath.Some? && p.historyPath.value !in w.files
    ensures r.1.Some? ==> r.1.value == HistoryMissing && r.0.files == w.files
    ensures p.historyPath.Some? && p.historyPath.value in w.files ==>
      var path := p.historyPath.value;
      && r.0.files.Keys == w.files.Keys
      && (forall q :: q in w.files && q != path ==> r.0.files[q] == w.files[q])
      && |r.0.files[path]| > |w.files[path]|
  {
    var tabs := w.tabs + [url];
    match p.historyPath
    case None => (World(w.files, tabs), None)
    case Some(path) =>
      var prior := if path in w.files then Some(w.files[path]) else None;
      match Write(prior, Entry(url, now))
      case Err(f) => (World(w.files, tabs), Some(f))
      case Ok(h) => (World(w.files[path := h], tabs), None)
  }

  /** A processed URL lands on top of the history, above the old lines. */
  lemma ProcessWritesOnTop(p: Processor, w: World, url: string, now: nat, es: seq<Entry>)
    requires p.historyPath.Some? && p.historyPath.value in w.files
    requires ParseHistory(w.files[p.historyPath.value]) == Some(es) && NoNewline(url)
    ensures var files := ProcessUrl(p, w, url, now).0.files;
      && ParseHistory(files[p.historyPath.value]) == Some([Entry(url, now)] + es)
      && DropFirstLine(files[p.historyPath.value]) == w.files[p.historyPath.value]
  {
    PrependParses(w.files[p.historyPath.value], Entry(url, now), es);
    PrependOnly(w.files[p.historyPath.value], Entry(url, now));
  }

  /** Whatever the history file holds, `process` puts exactly one line on
      top of it and leaves its text unchanged below that line. */
  lemma ProcessPrepends(p: Processor, w: World, url: string, now: nat)
    requires p.historyPath.Some? && p.historyPath.value in w.files && NoNewline(url)
    ensures var files := ProcessUrl(p, w, url, now).0.files;
      && p.historyPath.value in files
      && files[p.historyPath.value] == Replay(w.files[p.historyPath.value], [Entry(url, now)])
      && DropFirstLine(files[p.historyPath.value]) == w.files[p.historyPath.value]
      && Lines(files[p.historyPath.value]) == [Line(Entry(url, now))] + Lines(w.files[p.historyPath.value])
  {
    PrependOnly(w.files[p.historyPath.value], Entry(url, now));
  }

  /** The handler calls back with `url` at time `now`. */
  function Deliver(cb: Callback, w: World, url: string, now: nat): (r: Effect)
    ensures r.calls == [Entry(url, now)]
    ensures cb.Ignore? ==> r.world == w && r.raised.None?
    ensures cb.Process? ==> r.world.tabs == w.tabs + [url]
  {
    match cb
    case Ignore => Effect(w, [Entry(url, now)], None)
    case Process(p) =>
      var (w', f) := ProcessUrl(p, w, url, now);
      Effect(w', [Entry(url, now)], f)
  }

  /** File-system events; the handler only reacts to creations. */
  datatype Event = Created(path: string) | Modified(path: string) | Deleted(path: string) | Moved(src: string, dest: string)

  /** One event: the name filter, then `on_created`, then the callback. */
  function HandleEvent(h: Handler, w: World, ev: Event, now: nat): (r: Effect)
    ensures !ev.Created? ==> r == Effect(w, [], None)
    ensures |r.calls| <= 1
    ensures |r.calls| == 1 ==> r.calls[0].stamp == now && NoNewline(r.calls[0].url)
    ensures |r.calls| == 1 && h.onUrlFound.Process? ==>
      (r.world, r.raised) == ProcessUrl(h.onUrlFound.processor, w, r.calls[0].url, now)
    ensures r.calls == [] ==> r.world == w
    ensures h.onUrlFound.Ignore? ==> r.world == w
    ensures r.world.tabs == w.tabs + (if h.onUrlFound.Process? then UrlsOf(r.calls) else [])
  {
    match ev
    case Created(path) =>
      if !NameAccepted(path, h.ignoreCase) then Effect(w, [], None)
      else if path !in w.files then Effect(w, [], Some(LinkFileMissing))
      else
        (match OnCreated(h.contentRegex, w.files[path], h.isUrl)
         case Skipped => Effect(w, [], None)
         case Raised(f) => Effect(w, [], Some(f))
         case Found(url) => Deliver(h.onUrlFound, w, url, now))
    case _ => Effect(w, [], None)
  }

  /** The callback fires exactly once for a created file whose name passes
      the filter and whose content looks like a link file with exactly one
      capture that passes the URL check; it gets that capture. Names the
      filter rejects leave everything as it was. */
  lemma CallbackFiresIff(h: Handler, w: World, ev: Event, now: nat)
    ensures var r := HandleEvent(h, w, ev, now);
      |r.calls| == 1 <==>
        && ev.Created? && NamePattern(ev.path, h.ignoreCase) && ev.path in w.files
        && var content := w.files[ev.path];
        && LooksLikeLinkFile(h.contentRegex, content)
        && |Urls(h.contentRegex, content)| == 1
        && h.isUrl(Urls(h.contentRegex, content)[0])
    ensures var r := HandleEvent(h, w, ev, now);
      |r.calls| == 1 ==> r.calls[0].url == Urls(h.contentRegex, w.files[ev.path])[0]
    ensures ev.Created? && !NamePattern(ev.path, h.ignoreCase) ==>
      HandleEvent(h, w, ev, now) == Effect(w, [], None)
  {
    if ev.Created? {
      NameAcceptedIsPattern(ev.path, h.ignoreCase);
    }
  }

  /** Events handled in order, `clock[k]` being the time of `evs[k]`. The
      first exception ends the observer thread, so later events are not
      handled. */
  function Run(h: Handler, w: World, evs: seq<Event>, clock: seq<nat>): (r: Effect)
    requires |clock| == |evs|
    ensures |r.calls| <= |evs|
    ensures h.onUrlFound.Ignore? ==> r.world == w
    decreases |evs|
  {
    if |evs| == 0 then Effect(w, [], None)
    else
      var e := HandleEvent(h, w, evs[0], clock[0]);
      if e.raised.Some? then e
      else
        var rest := Run(h, e.world, evs[1..], clock[1..]);
        Effect(rest.world, e.calls + rest.calls, rest.raised)
  }

  lemma UrlsOfAppend(a: seq<Entry>, b: seq<Entry>)
    ensures UrlsOf(a + b) == UrlsOf(a) + UrlsOf(b)
  {
  }

  /** One event opens the tab of the URL it delivers and puts the URL on
      top of the history. */
  lemma StepRecordsVisit(h: Handler, w: World, ev: Event, now: nat, path: string, es: seq<Entry>)
    requires h.onUrlFound == Process(Processor(Some(path)))
    requires path in w.files && ParseHistory(w.files[path]) == Some(es)
    ensures var e := HandleEvent(h, w, ev, now);
      && e.world.tabs == w.tabs + UrlsOf(e.calls)
      && path in e.world.files
      && ParseHistory(e.world.files[path]) == Some(Reverse(e.calls) + es)
  {
    var e := HandleEvent(h, w, ev, now);
    if |e.calls| == 1 {
      var visit := e.calls[0];
      assert e.calls == [Entry(visit.url, now)];
      assert e.world == ProcessUrl(h.onUrlFound.processor, w, visit.url, now).0;
      ProcessWritesOnTop(h.onUrlFound.processor, w, visit.url, now, es);
      assert Reverse(e.calls) == [visit];
    } else {
      assert e.calls == [];
      assert Reverse(e.calls) + es == es;
    }
  }

  /** Over any run, the browser opens exactly the URLs handed to the
      callback, in order, and the history ends up holding them newest first
      on top of what it held before. */
  lemma {:induction false} RunRecordsVisits(h: Handler, w: World, evs: seq<Event>, clock: seq<nat>, path: string, es: seq<Entry>)
    requires |clock| == |evs|
    requires h.onUrlFound == Process(Processor(Some(path)))
    requires path in w.files && ParseHistory(w.files[path]) == Some(es)
    ensures var r := Run(h, w, evs, clock);
      && r.world.tabs == w.tabs + UrlsOf(r.calls)
      && path in r.world.files
      && ParseHistory(r.world.files[path]) == Some(Reverse(r.calls) + es)
    decreases |evs|
  {
    var r := Run(h, w, evs, clock);
    if |evs| == 0 {
      assert Reverse(r.calls) + es == es;
    } else {
      var e := HandleEvent(h, w, evs[0], clock[0]);
      var es' := Reverse(e.calls) + es;
      StepRecordsVisit(h, w, evs[0], clock[0], path, es);
      if e.raised.None? {
        var rest := Run(h, e.world, evs[1..], clock[1..]);
        RunRecordsVisits(h, e.world, evs[1..], clock[1..], path, es');
        assert r == Effect(rest.world, e.calls + rest.calls, rest.raised);
        UrlsOfAppend(e.calls, rest.calls);
        AppendAssoc(w.tabs, UrlsOf(e.calls), UrlsOf(rest.calls));
        ReverseAppend(e.calls, rest.calls);
        AppendAssoc(Reverse(rest.calls), Reverse(e.calls), es);
      }
    }
  }

  /** With any `process` callback, history on or off, present or missing,
      one event opens exactly the tabs of the URLs it delivers. */
  lemma {:induction false} RunOpensCallbackTabs(h: Handler, w: World, evs: seq<Event>, clock: seq<nat>)
    requires h.onUrlFound.Process? && |clock| == |evs|
    ensures var r := Run(h, w, evs, clock);
      r.world.tabs == w.tabs + UrlsOf(r.calls)
    decreases |evs|
  {
    if |evs| > 0 {
      var e := HandleEvent(h, w, evs[0], clock[0]);
      if e.raised.None? {
        var rest := Run(h, e.world, evs[1..], clock[1..]);
        RunOpensCallbackTabs(h, e.world, evs[1..], clock[1..]);
        UrlsOfAppend(e.calls, rest.calls);
        assert Run(h, w, evs, clock) == Effect(rest.world, e.calls + rest.calls, rest.raised);
        AppendAssoc(w.tabs, UrlsOf(e.calls), UrlsOf(rest.calls));
      }
    }
  }

  /** Every URL a run hands to the callback is a single line. */
  lemma {:induction false} RunCallsSingleLine(h: Handler, w: World, evs: seq<Event>, clock: seq<nat>)
    requires |clock| == |evs|
    ensures UrlsSingleLine(Run(h, w, evs, clock).calls)
    decreases |evs|
  {
    if |evs| > 0 {
      var e := HandleEvent(h, w, evs[0], clock[0]);
      if e.raised.None? {
        var rest := Run(h, e.world, evs[1..], clock[1..]);
        RunCallsSingleLine(h, e.world, evs[1..], clock[1..]);
        assert Run(h, w, evs, clock).calls == e.calls + rest.calls;
      }
    }
  }

  /** One event with history on: the history file's new text is its old
      text with the delivered visits written on top, whatever it held. */
  lemma StepStacksVisit(h: Handler, w: World, ev: Event, now: nat, path: string)
    requires h.onUrlFound == Process(Processor(Some(path))) && path in w.files
    ensures var e := HandleEvent(h, w, ev, now);
      && e.world.files.Keys == w.files.Keys
      && e.world.files[path] == Replay(w.files[path], e.calls)
      && (forall q :: q in w.files && q != path ==> e.world.files[q] == w.files[q])
  {
    var e := HandleEvent(h, w, ev, now);
    if |e.calls| == 1 {
      var visit := e.calls[0];
      assert e.calls == [Entry(visit.url, now)];
      assert e.world == ProcessUrl(h.onUrlFound.processor, w, visit.url, now).0;
      ProcessPrepends(h.onUrlFound.processor, w, visit.url, now);
    } else {
      assert e.calls == [];
    }
  }

  /** Over any run with a history file present, whatever it held: the file
      ends up as its old text with the visits written on top, newest first,
      and no other file changes. */
  lemma {:induction false} RunStacksVisits(h: Handler, w: World, evs: seq<Event>, clock: seq<nat>, path: string)
    requires |clock| == |evs|
    requires h.onUrlFound == Process(Processor(Some(path))) && path in w.files
    ensures var r := Run(h, w, evs, clock);
      && r.world.files.Keys == w.files.Keys
      && r.world.files[path] == Replay(w.files[path], r.calls)
      && (forall q :: q in w.files && q != path ==> r.world.files[q] == w.files[q])
    decreases |evs|
  {
    if |evs| > 0 {
      var e := HandleEvent(h, w, evs[0], clock[0]);
      StepStacksVisit(h, w, evs[0], clock[0], path);
      if e.raised.None? {
        var rest := Run(h, e.world, evs[1..], clock[1..]);
        RunStacksVisits(h, e.world, evs[1..], clock[1..], path);
        assert Run(h, w, evs, clock) == Effect(rest.world, e.calls + rest.calls, rest.raised);
        ReplayAppend(w.files[path], e.calls, rest.calls);
      }
    }
  }

  /** The raw text of the history after a run: one line per visit, newest
      first, then the old file exactly as it was, line by line too. */
  lemma RunHistoryText(h: Handler, w: World, evs: seq<Event>, clock: seq<nat>, path: string)
    requires |clock| == |evs|
    requires h.onUrlFound == Process(Processor(Some(path))) && path in w.files
    ensures var r := Run(h, w, evs, clock);
      && path in r.world.files
      && r.world.files[path] == Join(LinesOf(Reverse(r.calls))) + w.files[path]
      && Lines(r.world.files[path]) == LinesOf(Reverse(r.calls)) + Lines(w.files[path])
      && r.world.tabs == w.tabs + UrlsOf(r.calls)
  {
    var r := Run(h, w, evs, clock);
    RunStacksVisits(h, w, evs, clock, path);
    RunCallsSingleLine(h, w, evs, clock);
    RunOpensCallbackTabs(h, w, evs, clock);
    ReplayStacksLines(w.files[path], r.calls);
    ReplayLinesOnTop(w.files[path], r.calls);
  }

  lemma ReverseAppend<T>(a: seq<T>, b: seq<T>)
    ensures Reverse(a + b) == Reverse(b) + Reverse(a)
  {
  }

  // ---------------------------------------------------------------------
  // Command line

  /** The two positional arguments. */
  datatype Config = Config(watchDir: string, historyPath: Option<string>)

  /** Lines 114-115: `argv[1]` or `.`, and `argv[2]` or no history. */
  function ParseArgs(argv: seq<string>): (c: Config)
    ensures |argv| > 1 ==> c.watchDir == argv[1]
    ensures |argv| <= 1 ==> c.watchDir == "."
    ensures c.historyPath.Some? <==> |argv| > 2
    ensures c.historyPath.Some? ==> c.historyPath.value == argv[2]
  {
    Config(
      if |argv| > 1 then argv[1] else ".",
      if |argv| > 2 then Some(argv[2]) else None)
  }

  /** Only the first two arguments after the program name count; the
      defaults apply exactly when they are absent. */
  lemma ArgsPositional(argv: seq<string>, extra: seq<string>)
    ensures |argv| >= 3 ==> ParseArgs(argv + extra) == ParseArgs(argv)
    ensures ParseArgs(argv).watchDir == "." <==> |argv| <= 1 || argv[1] == "."
    ensures ParseArgs(argv).historyPath == None <==> |argv| <= 2
  {
    if |argv| >= 3 {
      assert (argv + extra)[1] == argv[1] && (argv + extra)[2] == argv[2];
    }
  }

  /** The handler the program builds from its arguments. */
  function Wire(argv: seq<string>, isUrl: string -> bool): (h: Handler)
    ensures h.onUrlFound == Process(Processor(ParseArgs(argv).historyPath))
    ensures h.contentRegex == ContentTemplate && h.ignoreCase
  {
    NewHtmlHandler(Some(Process(Processor(ParseArgs(argv).historyPath))), isUrl)
  }

  /** With history off, one event changes no file and opens the tab of the
      URL it delivers. */
  lemma StepWithoutHistory(h: Handler, w: World, ev: Event, now: nat)
    requires h.onUrlFound == Process(Processor(None))
    ensures var e := HandleEvent(h, w, ev, now);
      e.world.files == w.files && e.world.tabs == w.tabs + UrlsOf(e.calls)
  {
  }

  /** With history off, a run changes no file and opens one tab per
      callback, in order. */
  lemma {:induction false} RunWithoutHistory(h: Handler, w: World, evs: seq<Event>, clock: seq<nat>)
    requires h.onUrlFound == Process(Processor(None)) && |clock| == |evs|
    ensures var r := Run(h, w, evs, clock);
      r.world.files == w.files && r.world.tabs == w.tabs + UrlsOf(r.calls)
    decreases |evs|
  {
    if |evs| > 0 {
      var e := HandleEvent(h, w, evs[0], clock[0]);
      StepWithoutHistory(h, w, evs[0], clock[0]);
      if e.raised.None? {
        var rest := Run(h, e.world, evs[1..], clock[1..]);
        RunWithoutHistory(h, e.world, evs[1..], clock[1..]);
        UrlsOfAppend(e.calls, rest.calls);
        assert Run(h, w, evs, clock) == Effect(rest.world, e.calls + rest.calls, rest.raised);
        AppendAssoc(w.tabs, UrlsOf(e.calls), UrlsOf(rest.calls));
      }
    }
  }

  /** Without a second argument the worker never touches a file: it only
      opens tabs, one per callback. */
  lemma NoHistoryWithoutArgument(argv: seq<string>, isUrl: string -> bool, w: World, evs: seq<Event>, clock: seq<nat>)
    requires |argv| <= 2 && |clock| == |evs|
    ensures var r := Run(Wire(argv, isUrl), w, evs, clock);
      && r.world.files == w.files
      && r.world.tabs == w.tabs + UrlsOf(r.calls)
  {
    RunWithoutHistory(Wire(argv, isUrl), w, evs, clock);
  }

  /** Files with other extensions are never opened. */
  lemma OtherExtensionIgnored(h: Handler, w: World, now: nat)
    ensures HandleEvent(h, w, Created("b.txt"), now) == Effect(w, [], None)
  {
    NamesRejected(h.ignoreCase);
    CallbackFiresIff(h, w, Created("b.txt"), now);
  }
}
