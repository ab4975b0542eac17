/**
 * The browser window's own state (class SilkBrowser): the tab collection with its current
 * index, the address-bar text and the history list. The web engine behind each tab is not
 * modelled beyond the URL it last reported; what the window asks of it is appended to a
 * log of engine commands, each addressed to the tab whose engine received it.
 */
module Browser {
  import Address
  import History
  import Download

  /** A tab of the tab widget; every tab holds one engine view. */
  datatype Tab = Tab(title: string)

  /** A request to an engine view. */
  datatype EngineCommand = Load(url: string) | Back | Forward | Reload

  /** A command together with the index of the tab whose engine received it. */
  datatype Issued = Issued(tab: nat, cmd: EngineCommand)

  const BlankPage: string := "about:blank"
  const NewTabTitle: string := "New Tab"

  class SilkBrowser {
    var tabs: seq<Tab>
    /** Current index of the tab widget; -1 while it holds no tab. */
    var current: int
    var urlBar: string
    var history: seq<string>
    var issued: seq<Issued>
    /** Per tab, the URL its engine last reported (what its url() returns). */
    var engineUrls: seq<string>
    /** How many times the download handler is connected to the shared profile's signal. */
    var downloadSlots: nat

    /**
     * The tab widget keeps a valid current index whenever it has tabs; the history has no
     * duplicates; each tab has one engine URL and added one download-handler connection.
     */
    ghost predicate Valid()
      reads this
    {
      (if tabs == [] then current == -1 else 0 <= current < |tabs|) &&
      History.NoDuplicates(history) &&
      |engineUrls| == |tabs| && downloadSlots == |tabs| &&
      forall k :: 0 <= k < |issued| ==> issued[k].tab < |tabs|
    }

    /** The engine view of the current tab, as an index, or None when there is no current tab. */
    function CurrentBrowser(): (b: Option<nat>)
      reads this
      requires Valid()
      ensures b.Some? <==> tabs != []
      ensures b.Some? ==> b.value < |tabs| && b.value == current
    {
      if 0 <= current < |tabs| then Some(current) else None
    }

    /** The window as it stands once built: one blank tab, an empty address bar and history. */
    constructor ()
      ensures Valid()
      ensures tabs == [Tab(NewTabTitle)] && current == 0
      ensures issued == [Issued(0, Load(BlankPage))]
      ensures urlBar == "" && history == []
      ensures engineUrls == [BlankPage] && downloadSlots == 1
    {
      tabs, current, urlBar, history, issued := [], -1, "", [], [];
      engineUrls, downloadSlots := [], 0;
      new;
      NewTab();
      history := [];
    }

    /**
     * Opens a tab whose engine is set to the blank page, appends it and makes it current,
     * and connects the download handler to the shared profile once more.
     */
    method NewTab()
      requires Valid()
      modifies this
      ensures Valid()
      ensures tabs == old(tabs) + [Tab(NewTabTitle)]
      ensures current == |tabs| - 1 && CurrentBrowser() == Some(|old(tabs)|)
      ensures issued == old(issued) + [Issued(|old(tabs)|, Load(BlankPage))]
      ensures engineUrls == old(engineUrls) + [BlankPage]
      ensures downloadSlots == old(downloadSlots) + 1
      ensures urlBar == old(urlBar) && history == old(history)
    {
      var index := |tabs|;
      issued := issued + [Issued(index, Load(BlankPage))];
      engineUrls := engineUrls + [BlankPage];
      tabs := tabs + [Tab(NewTabTitle)];
      current := index;
      downloadSlots := downloadSlots + 1;
    }

    /**
     * The shared profile offers a download at `suggested`: the handler runs once per
     * connection, the user answering each run's dialogs in turn; the result is the
     * download item after all runs.
     */
    method DownloadRequested(suggested: string, answers: seq<Download.Answer>) returns (item: Download.Item)
      requires Valid() && |answers| == downloadSlots
      ensures item == Download.Run(Download.Item(suggested, Download.Requested), Download.HandleAll(answers))
      ensures item.status == Download.Cancelled <==> Download.SomeNo(answers)
      ensures item.status == Download.Accepted ==>
        exists i :: Download.FirstChosen(answers, i) && item.path == answers[i].savePath
    {
      Download.HandleAllOutcome(suggested, answers);
      item := Download.Run(Download.Item(suggested, Download.Requested), Download.HandleAll(answers));
    }

    /** Sends `cmd` to the current tab's engine, or does nothing when there is none. */
    method ToCurrent(cmd: EngineCommand)
      requires Valid()
      modifies this`issued
      ensures Valid()
      ensures CurrentBrowser().None? ==> issued == old(issued)
      ensures CurrentBrowser().Some? ==> issued == old(issued) + [Issued(current, cmd)]
    {
      var browser := CurrentBrowser();
      if browser.Some? {
        issued := issued + [Issued(browser.value, cmd)];
      }
    }

    method GoBack()
      requires Valid()
      modifies this`issued
      ensures Valid()
      ensures CurrentBrowser().None? ==> issued == old(issued)
      ensures CurrentBrowser().Some? ==> issued == old(issued) + [Issued(current, Back)]
    {
      ToCurrent(Back);
    }

    method GoForward()
      requires Valid()
      modifies this`issued
      ensures Valid()
      ensures CurrentBrowser().None? ==> issued == old(issued)
      ensures CurrentBrowser().Some? ==> issued == old(issued) + [Issued(current, Forward)]
    {
      ToCurrent(Forward);
    }

    method ReloadPage()
      requires Valid()
      modifies this`issued
      ensures Valid()
      ensures CurrentBrowser().None? ==> issued == old(issued)
      ensures CurrentBrowser().Some? ==> issued == old(issued) + [Issued(current, Reload)]
    {
      ToCurrent(Reload);
    }

    /**
     * Return pressed in the address bar: empty text issues nothing; otherwise the
     * normalised URL is loaded into the current tab's engine, if there is one. The text is
     * whatever the user typed or the URL last shown there, so it may be any string.
     */
    method NavigateToUrl()
      requires Valid()
      modifies this`issued
      ensures Valid()
      ensures urlBar == "" || CurrentBrowser().None? ==> issued == old(issued)
      ensures urlBar != "" && CurrentBrowser().Some? ==>
        issued == old(issued) + [Issued(current, Load(Address.Normalize(urlBar)))]
    {
      var text := urlBar;
      if text != "" {
        var url := Address.Normalize(text);
        ToCurrent(Load(url));
      }
    }

    /** Slot of an engine's URL-changed signal: shows the URL in the address bar. */
    method UpdateUrlBar(url: string)
      requires Valid()
      modifies this`urlBar
      ensures Valid() && urlBar == url
    {
      urlBar := url;
    }

    /** Slot of an engine's URL-changed signal: records the URL in the history. */
    method TrackHistory(url: string)
      requires Valid()
      modifies this`history
      ensures Valid()
      ensures history == History.Record(old(history), url)
    {
      if url !in history {
        history := history + [url];
      }
    }

    /**
     * The engine of tab `tab` reports a new URL. Both slots run, in the order they were
     * connected, whichever tab's engine sent the signal, current or not.
     */
    method UrlChanged(tab: nat, url: string)
      requires Valid() && tab < |tabs|
      modifies this`urlBar, this`history, this`engineUrls
      ensures Valid()
      ensures engineUrls == old(engineUrls)[tab := url]
      ensures urlBar == url && history == History.Record(old(history), url)
      ensures url in history
    {
      engineUrls := engineUrls[tab := url];
      UpdateUrlBar(url);
      TrackHistory(url);
    }

    /** Handler of a tab-bar click: the address bar shows the current engine's URL. */
    method TabChanged()
      requires Valid()
      modifies this`urlBar
      ensures Valid()
      ensures CurrentBrowser().Some? ==> urlBar == engineUrls[current]
      ensures CurrentBrowser().None? ==> urlBar == old(urlBar)
    {
      var browser := CurrentBrowser();
      if browser.Some? {
        urlBar := engineUrls[browser.value];
      }
    }

    /** The tab widget switches to tab `index`; an index outside the tabs is ignored. */
    method SetCurrentIndex(index: int)
      requires Valid()
      modifies this`current
      ensures Valid()
      ensures current == if 0 <= index < |tabs| then index else old(current)
    {
      if 0 <= index < |tabs| {
        current := index;
      }
    }

    /**
     * A left click on tab `index`, as the window is wired: the tab bar signals the click
     * before it switches, so the address bar shows the URL of the tab current before the
     * click, not of the clicked one.
     */
    method ClickTab(index: int)
      requires Valid()
      modifies this`urlBar, this`current
      ensures Valid()
      ensures old(tabs) != [] ==> urlBar == engineUrls[old(current)]
      ensures current == if 0 <= index < |tabs| then index else old(current)
    {
      TabChanged();
      SetCurrentIndex(index);
    }

    /** A tab switch that refreshes the address bar after switching: it shows the new current tab's URL. */
    method SwitchTab(index: int)
      requires Valid()
      modifies this`urlBar, this`current
      ensures Valid()
      ensures current == if 0 <= index < |tabs| then index else old(current)
      ensures tabs != [] ==> urlBar == engineUrls[current]
    {
      SetCurrentIndex(index);
      TabChanged();
    }
  }

  /**
   * Two tabs showing a.com and b.com, the second current; clicking the first leaves the
   * address bar showing b.com while the current tab shows a.com.
   */
  method ClickShowsPreviousTab() returns (shown: string, currentUrl: string)
    ensures shown == "http://b.com" && currentUrl == "http://a.com"
    ensures shown != currentUrl
  {
    var window := new SilkBrowser();
    window.NewTab();
    window.UrlChanged(0, "http://a.com");
    window.UrlChanged(1, "http://b.com");
    window.ClickTab(0);
    shown := window.urlBar;
    currentUrl := window.engineUrls[window.current];
    assert shown[7] != currentUrl[7];
  }

  datatype Option<T> = None | Some(value: T)
}
