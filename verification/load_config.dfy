/**
 * The performance test configuration loader: an optional URL from the command line
 * replaces the URLs of `defaultHandler`, and then the URLs of all handlers are collected,
 * in handler order, into `config.urls`. A URL may not appear in two handlers, and the
 * collected list may not be empty. Reading and parsing the file and the command line are
 * not modelled: the parsed configuration and the `--url` value are inputs.
 */
module LoadConfig {
  import opened Wrappers

  const DEFAULT_HANDLER: string := "defaultHandler"
  const NOT_UNIQUE_ERROR: string := "All urls must be unique"
  const NO_URLS_ERROR: string := "No URLs found in config."
  const NO_DEFAULT_HANDLER_ERROR: string := "TypeError: config.handlers.defaultHandler is undefined"

  // ---------------------------------------------------------------------------------------
  // The collection, as a fold and as a reference definition

  /**
   * The `reduce` of `Object.keys(config.handlers)`, continued from the list `prev` collected
   * so far: each handler's list is checked against `prev` and then appended to it.
   */
  function CollectFrom(prev: seq<string>, names: seq<string>, handlers: map<string, seq<string>>): (r: Result<seq<string>>)
    requires forall k :: 0 <= k < |names| ==> names[k] in handlers
    ensures r.Success? ==> prev <= r.value
    ensures r.Failure? ==> r.error == NOT_UNIQUE_ERROR
    decreases |names|
  {
    if names == [] then Success(prev)
    else if exists u :: u in handlers[names[0]] && u in prev then Failure(NOT_UNIQUE_ERROR)
    else CollectFrom(prev + handlers[names[0]], names[1..], handlers)
  }

  /** The URLs of the handlers `names`, one list after the other. */
  function Concat(names: seq<string>, handlers: map<string, seq<string>>): (r: seq<string>)
    requires forall k :: 0 <= k < |names| ==> names[k] in handlers
    ensures names != [] ==> handlers[names[0]] <= r
  {
    if names == [] then [] else handlers[names[0]] + Concat(names[1..], handlers)
  }

  /** No URL of a handler appears in an earlier handler's list. */
  predicate NoCrossDuplicates(names: seq<string>, handlers: map<string, seq<string>>)
    requires forall k :: 0 <= k < |names| ==> names[k] in handlers
  {
    forall i, j, u :: 0 <= i < j < |names| && u in handlers[names[j]] ==> u !in handlers[names[i]]
  }

  /** The collected list: the URLs in handler order, or an error. */
  function CollectUrls(names: seq<string>, handlers: map<string, seq<string>>): (r: Result<seq<string>>)
    requires forall k :: 0 <= k < |names| ==> names[k] in handlers
    ensures r.Success? ==> |r.value| >= 1
    ensures r.Failure? ==> r.error == NOT_UNIQUE_ERROR || r.error == NO_URLS_ERROR
  {
    match CollectFrom([], names, handlers)
    case Failure(e) => Failure(e)
    case Success(urls) => if |urls| < 1 then Failure(NO_URLS_ERROR) else Success(urls)
  }

  /** Concatenation over `names[..i+1]` extends concatenation over `names[..i]` by one handler's list. */
  lemma {:induction false} ConcatSnoc(names: seq<string>, handlers: map<string, seq<string>>, i: int)
    requires forall k :: 0 <= k < |names| ==> names[k] in handlers
    requires 0 <= i < |names|
    ensures Concat(names[..i + 1], handlers) == Concat(names[..i], handlers) + handlers[names[i]]
    decreases i
  {
    if i == 0 {
      assert names[..1] == [names[0]];
      assert Concat([names[0]], handlers) == handlers[names[0]] + Concat([], handlers);
    } else {
      var tail := names[1..];
      ConcatSnoc(tail, handlers, i - 1);
      assert names[..i + 1][1..] == tail[..i];
      assert names[..i][1..] == tail[..i - 1];
      assert names[..i + 1][0] == names[0] && names[..i][0] == names[0];
    }
  }

  /** A URL is in the concatenation exactly when some handler in `names` lists it. */
  lemma {:induction false} InConcat(names: seq<string>, handlers: map<string, seq<string>>, u: string)
    requires forall k :: 0 <= k < |names| ==> names[k] in handlers
    ensures u in Concat(names, handlers) <==> exists k :: 0 <= k < |names| && u in handlers[names[k]]
  {
    if names != [] {
      InConcat(names[1..], handlers, u);
      if u in Concat(names[1..], handlers) {
        var k :| 0 <= k < |names[1..]| && u in handlers[names[1..][k]];
        assert u in handlers[names[k + 1]];
      }
      if exists k :: 0 <= k < |names| && u in handlers[names[k]] {
        var k :| 0 <= k < |names| && u in handlers[names[k]];
        if k > 0 {
          assert u in handlers[names[1..][k - 1]];
        }
      }
    }
  }

  /**
   * The fold agrees with the reference definition: continued from `Concat(done)`, it fails
   * exactly when a URL of a later handler was listed by an earlier one, and otherwise gives
   * the concatenation of all lists.
   */
  lemma {:induction false} CollectFromSpec(done: seq<string>, names: seq<string>, handlers: map<string, seq<string>>)
    requires forall k :: 0 <= k < |done| ==> done[k] in handlers
    requires forall k :: 0 <= k < |names| ==> names[k] in handlers
    requires NoCrossDuplicates(done, handlers)
    ensures forall k :: 0 <= k < |done + names| ==> (done + names)[k] in handlers
    ensures CollectFrom(Concat(done, handlers), names, handlers) ==
      if NoCrossDuplicates(done + names, handlers) then Success(Concat(done + names, handlers))
      else Failure(NOT_UNIQUE_ERROR)
    decreases |names|
  {
    var all := done + names;
    assert forall k :: 0 <= k < |all| ==> all[k] in handlers by {
      forall k | 0 <= k < |all| ensures all[k] in handlers {
        if k < |done| { assert all[k] == done[k]; } else { assert all[k] == names[k - |done|]; }
      }
    }
    if names == [] {
      assert all == done;
      return;
    }
    var h := names[0];
    var next := done + [h];
    assert next + names[1..] == all;
    assert next[..|done|] == done;
    ConcatSnoc(next, handlers, |done|);
    assert next[..|done| + 1] == next;
    var prev := Concat(done, handlers);
    if exists u :: u in handlers[h] && u in prev {
      var u :| u in handlers[h] && u in prev;
      InConcat(done, handlers, u);
      var k :| 0 <= k < |done| && u in handlers[done[k]];
      assert all[k] == done[k] && all[|done|] == h;
      assert !NoCrossDuplicates(all, handlers);
    } else {
      assert forall i, u :: 0 <= i < |done| && u in handlers[h] ==> u !in handlers[done[i]] by {
        forall i, u | 0 <= i < |done| && u in handlers[h] ensures u !in handlers[done[i]] {
          if u in handlers[done[i]] {
            InConcat(done, handlers, u);
          }
        }
      }
      assert NoCrossDuplicates(next, handlers) by {
        forall i, j, u | 0 <= i < j < |next| && u in handlers[next[j]] ensures u !in handlers[next[i]] {
          if j < |done| {
            assert next[i] == done[i] && next[j] == done[j];
          } else {
            assert next[j] == h && next[i] == done[i];
          }
        }
      }
      CollectFromSpec(next, names[1..], handlers);
      assert NoCrossDuplicates(all, handlers) <==> NoCrossDuplicates(next + names[1..], handlers);
    }
  }

  /**
   * The collected list is the concatenation of all handlers' lists in order when no URL
   * repeats across handlers and the result is not empty; otherwise it is the matching error.
   */
  lemma CollectUrlsSpec(names: seq<string>, handlers: map<string, seq<string>>)
    requires forall k :: 0 <= k < |names| ==> names[k] in handlers
    ensures !NoCrossDuplicates(names, handlers) ==> CollectUrls(names, handlers) == Failure(NOT_UNIQUE_ERROR)
    ensures NoCrossDuplicates(names, handlers) && |Concat(names, handlers)| == 0 ==>
      CollectUrls(names, handlers) == Failure(NO_URLS_ERROR)
    ensures NoCrossDuplicates(names, handlers) && |Concat(names, handlers)| > 0 ==>
      CollectUrls(names, handlers) == Success(Concat(names, handlers))
  {
    assert [] + names == names;
    CollectFromSpec([], names, handlers);
  }

  /** A URL listed twice by the same handler is accepted: only earlier handlers are checked. */
  lemma DuplicatesWithinOneHandler()
    ensures CollectUrls(["a"], map["a" := ["https://x", "https://x"]]) == Success(["https://x", "https://x"])
  {
    var handlers := map["a" := ["https://x", "https://x"]];
    assert !exists u :: u in handlers["a"] && u in [];
    assert ["a"][1..] == [] && [] + handlers["a"] == handlers["a"];
    assert CollectFrom([], ["a"], handlers) == CollectFrom(handlers["a"], [], handlers);
  }

  /** The same URL in two handlers is rejected. */
  lemma DuplicatesAcrossHandlers()
    ensures CollectUrls(["a", "b"], map["a" := ["https://x"], "b" := ["https://x"]]) == Failure(NOT_UNIQUE_ERROR)
  {
    var handlers := map["a" := ["https://x"], "b" := ["https://x"]];
    assert !exists u :: u in handlers["a"] && u in [];
    assert ["a", "b"][1..] == ["b"];
    assert [] + handlers["a"] == ["https://x"];
    assert "https://x" in handlers["b"] && "https://x" in ["https://x"];
  }

  // ---------------------------------------------------------------------------------------
  // The configuration object

  /** The parsed configuration: the handlers in key order, each with its URLs, and the collected `urls`. */
  class Config {
    var handlerNames: seq<string>
    var handlers: map<string, seq<string>>
    var urls: Option<seq<string>>

    /** `Object.keys(config.handlers)` lists each handler once, and only handlers. */
    predicate Valid()
      reads this
    {
      (forall k :: 0 <= k < |handlerNames| ==> handlerNames[k] in handlers) &&
      (forall name :: name in handlers ==> name in handlerNames) &&
      (forall i, j :: 0 <= i < j < |handlerNames| ==> handlerNames[i] != handlerNames[j])
    }

    constructor(names: seq<string>, lists: map<string, seq<string>>)
      requires forall k :: 0 <= k < |names| ==> names[k] in lists
      requires forall name :: name in lists ==> name in names
      requires forall i, j :: 0 <= i < j < |names| ==> names[i] != names[j]
      ensures Valid()
      ensures handlerNames == names && handlers == lists && urls.None?
    {
      handlerNames := names;
      handlers := lists;
      urls := None;
    }

    /**
     * The `reduce` over the handlers: each handler's URLs are looked up in the list collected
     * so far (`forEach` with `indexOf`), and the handler's list is appended when none is found.
     */
    method Collect() returns (r: Result<seq<string>>)
      requires Valid()
      ensures r == CollectFrom([], handlerNames, handlers)
    {
      var prev: seq<string> := [];
      var i := 0;
      while i < |handlerNames|
        invariant 0 <= i <= |handlerNames|
        invariant CollectFrom([], handlerNames, handlers) == CollectFrom(prev, handlerNames[i..], handlers)
      {
        var list := handlers[handlerNames[i]];
        var j := 0;
        while j < |list|
          invariant 0 <= j <= |list|
          invariant forall k :: 0 <= k < j ==> list[k] !in prev
        {
          if list[j] in prev {
            assert list[j] in handlers[handlerNames[i..][0]];
            return Failure(NOT_UNIQUE_ERROR);
          }
          j := j + 1;
        }
        assert !exists u :: u in list && u in prev by {
          forall u | u in list ensures u !in prev {
            var k :| 0 <= k < |list| && list[k] == u;
          }
        }
        assert handlerNames[i..][0] == handlerNames[i] && handlerNames[i..][1..] == handlerNames[i + 1..];
        prev := prev + list;
        i := i + 1;
      }
      return Success(prev);
    }

    /**
     * `loadConfig()` on the parsed configuration: a `--url` replaces the URLs of
     * `defaultHandler` (and fails when there is no such handler), then `urls` is collected;
     * an empty collection is reported after `urls` has been assigned.
     */
    method Load(urlOverride: Option<string>) returns (r: Result<seq<string>>)
      requires Valid()
      modifies this
      ensures Valid()
      ensures handlerNames == old(handlerNames)
      ensures urlOverride.Some? && urlOverride.value != "" && DEFAULT_HANDLER !in old(handlers) ==>
        r == Failure(NO_DEFAULT_HANDLER_ERROR) && handlers == old(handlers) && urls == old(urls)
      ensures urlOverride.Some? && urlOverride.value != "" && DEFAULT_HANDLER in old(handlers) ==>
        handlers == old(handlers)[DEFAULT_HANDLER := [urlOverride.value]]
      ensures (urlOverride.None? || urlOverride.value == "") ==> handlers == old(handlers)
      ensures !(urlOverride.Some? && urlOverride.value != "" && DEFAULT_HANDLER !in old(handlers)) ==>
        r == CollectUrls(handlerNames, handlers) &&
        urls == (if CollectFrom([], handlerNames, handlers).Success? then Some(CollectFrom([], handlerNames, handlers).value) else old(urls))
    {
      if urlOverride.Some? && urlOverride.value != "" {
        if DEFAULT_HANDLER !in handlers {
          return Failure(NO_DEFAULT_HANDLER_ERROR);
        }
        handlers := handlers[DEFAULT_HANDLER := [urlOverride.value]];
      }
      var collected := Collect();
      if collected.Failure? {
        return Failure(collected.error);
      }
      urls := Some(collected.value);
      if |collected.value| < 1 {
        return Failure(NO_URLS_ERROR);
      }
      return Success(collected.value);
    }
  }

  /** The override touches only `defaultHandler`: every other handler keeps its URLs. */
  lemma OverrideTouchesOnlyDefault(handlers: map<string, seq<string>>, url: string, name: string)
    requires name in handlers && name != DEFAULT_HANDLER
    ensures name in handlers[DEFAULT_HANDLER := [url]]
    ensures handlers[DEFAULT_HANDLER := [url]][name] == handlers[name]
    ensures handlers[DEFAULT_HANDLER := [url]][DEFAULT_HANDLER] == [url]
  {
  }
}
