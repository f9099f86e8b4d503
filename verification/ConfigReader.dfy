/** The parser as it runs: an index moving over the token array while blocks grow. */
module ConfigReader {
  import opened Options
  import opened Text
  import opened ConfigLexer
  import opened ConfigSyntax
  import opened ConfigRoundTrip

  // ---------------------------------------------------------------- one turn of a loop that comes to its end

  lemma DirectiveTakes(ts: seq<CString>)
    ensures var r := ParseDirective(ts);
            (r.Done? && r.value.Some? ==> |r.rest| < |ts|) && (r.Done? && r.value.None? ==> r.rest == ts)
  {
  }

  lemma LocationNext(ts: seq<CString>, ds: seq<Directive>)
    requires ParseLocationBody(ts, ds).Done?
    ensures ts != []
    ensures ts[0] == "}" ==> ParseLocationBody(ts, ds) == Done(ds, ts[1..])
    ensures ts[0] != "}" ==>
      var r := ParseDirective(ts);
      r.Done? && r.value.Some? && ParseLocationBody(ts, ds) == ParseLocationBody(r.rest, ds + [r.value.value])
  {
  }

  lemma ServerNext(ts: seq<CString>, s: Server)
    requires ParseServerBody(ts, s).Done?
    ensures ts != []
    ensures ts[0] == "}" ==> ParseServerBody(ts, s) == Done(s, ts[1..])
    ensures ts[0] == "location" ==>
      var r := ParseLocation(ts);
      r.Done? && ParseServerBody(ts, s) == ParseServerBody(r.rest, s.(locations := [r.value] + s.locations))
    ensures ts[0] != "}" && ts[0] != "location" ==>
      var r := ParseDirective(ts);
      && r.Done? && r.value.Some?
      && ParseServerBody(ts, s) == ParseServerBody(r.rest, s.(directives := s.directives + [r.value.value]))
  {
    DirectiveTakes(ts);
    hide ParseLocation, ParseDirective;
  }

  lemma UpstreamNext(ts: seq<CString>, u: Upstream)
    requires ParseUpstreamBody(ts, u).Done?
    ensures ts == [] || (ts[0] == "server" && |ts| == 1) ==> ParseUpstreamBody(ts, u) == Done(u, [])
    ensures ts != [] && ts[0] == "}" ==> ParseUpstreamBody(ts, u) == Done(u, ts[1..])
    ensures |ts| > 1 && ts[0] == "server" ==>
      var (p, rest) := ParseParameters(ts[2..], ParseAddress(ts[1]));
      ParseUpstreamBody(ts, u) == ParseUpstreamBody(rest, u.(servers := [p] + u.servers))
    ensures ts != [] && ts[0] != "}" && ts[0] != "server" ==>
      var r := ParseDirective(ts);
      && r.Done? && r.value.Some?
      && ParseUpstreamBody(ts, u) == ParseUpstreamBody(r.rest, u.(directives := u.directives + [r.value.value]))
  {
    DirectiveTakes(ts);
    hide ParseParameters, ParseAddress, ParseDirective;
  }

  lemma HttpNext(ts: seq<CString>, h: Http)
    requires ParseHttpBody(ts, h).Done?
    ensures ts != []
    ensures ts[0] == "}" ==> ParseHttpBody(ts, h) == Done(h, ts[1..])
    ensures ts[0] == "server" ==>
      var r := ParseServer(ts);
      r.Done? && ParseHttpBody(ts, h) == ParseHttpBody(r.rest, h.(servers := [r.value] + h.servers))
    ensures ts[0] == "upstream" ==>
      var r := ParseUpstream(ts);
      && r.Done?
      && ParseHttpBody(ts, h)
      == ParseHttpBody(r.rest, if r.value.None? then h else h.(upstreams := [r.value.value] + h.upstreams))
    ensures ts[0] !in ["}", "server", "upstream"] ==>
      var r := ParseDirective(ts);
      && r.Done? && r.value.Some?
      && ParseHttpBody(ts, h) == ParseHttpBody(r.rest, h.(directives := h.directives + [r.value.value]))
  {
    DirectiveTakes(ts);
    hide ParseServer, ParseUpstream, ParseDirective;
  }

  lemma TopNext(ts: seq<CString>, http: Option<Http>)
    requires ParseTop(ts, http).Done?
    ensures ts == [] ==> ParseTop(ts, http) == Done(http, [])
    ensures ts != [] && ts[0] == "http" ==>
      var r := ParseHttp(ts);
      r.Done? && |r.rest| < |ts| && ParseTop(ts, http) == ParseTop(r.rest, r.value)
    ensures ts != [] && ts[0] != "http" ==> ParseTop(ts, http) == ParseTop(ts[1..], http)
  {
    hide ParseHttp;
  }

  class Parser {
    const source: Tokens
    var idx: nat

    ghost predicate Valid()
      reads this, source
    {
      source.Valid() && idx <= source.count
    }

    /** The tokens not yet consumed. */
    ghost function Rest(): seq<CString>
      requires Valid()
      reads this, source, source.tokens
    {
      source.View()[idx..]
    }

    constructor (source: Tokens)
      requires source.Valid()
      ensures Valid() && this.source == source && Rest() == source.View()
    {
      this.source, idx := source, 0;
    }

    /** `*token_idx < token_count && strcmp(tokens[*token_idx], t) != 0`, the guard of every block loop. */
    predicate Before(t: string)
      requires Valid()
      reads this, source, source.tokens
    {
      idx < source.count && source.tokens[idx] != t
    }

    method Take() returns (t: CString)
      requires Valid() && Rest() != []
      modifies this`idx
      ensures Valid() && t == old(Rest())[0] && Rest() == old(Rest())[1..]
    {
      t := source.tokens[idx];
      idx := idx + 1;
    }

    /** `parse_directive`: without a second token nothing is taken. */
    method ReadDirective() returns (d: Option<Directive>)
      requires Valid() && ParseDirective(Rest()).Done?
      modifies this`idx
      ensures Valid() && Done(d, Rest()) == ParseDirective(old(Rest()))
    {
      if idx + 1 >= source.count { return None; }
      var key := Take();
      var value := ReadValue();
      hide ParseValue;
      d := Some(Directive(key, if value == [] then None else Some(value)));
      if idx < source.count {
        var semicolon := Take();
      }
    }

    method ReadValue() returns (buffer: CString)
      requires Valid() && ParseValue(Rest(), [], 0).Done?
      modifies this`idx
      ensures Valid() && Done(buffer, Rest()) == ParseValue(old(Rest()), [], 0)
    {
      ghost var start := Rest();
      buffer := [];
      var length: nat := 0;
      while Before(";")
        invariant Valid() && ParseValue(Rest(), buffer, length) == ParseValue(start, [], 0)
        decreases source.count - idx
      {
        var first := length == 0;
        var t := Take();
        if !first {
          buffer := Append(buffer, length, [SPACE]);
          length := length + 1;
        }
        buffer := Append(buffer, length, t);
        length := length + |t|;
      }
    }

    method ReadLocation() returns (l: Location)
      requires Valid() && Rest() != [] && Rest()[0] == "location" && ParseLocation(Rest()).Done?
      modifies this`idx
      ensures Valid() && Done(l, Rest()) == ParseLocation(old(Rest()))
    {
      hide ParseDirective, ParseLocationBody;
      var keyword := Take();
      var path := Take();
      var open := Take();
      var ds := ReadLocationBody();
      l := Location(path, ds);
    }

    method ReadLocationBody() returns (ds: seq<Directive>)
      requires Valid() && ParseLocationBody(Rest(), []).Done?
      modifies this`idx
      ensures Valid() && Done(ds, Rest()) == ParseLocationBody(old(Rest()), [])
    {
      hide ParseDirective, ParseLocationBody;
      ghost var start := Rest();
      ds := [];
      while Before("}")
        invariant Valid() && ParseLocationBody(Rest(), ds) == ParseLocationBody(start, [])
        decreases source.count - idx
      {
        assert Rest()[0] == source.tokens[idx];
        LocationNext(Rest(), ds);
        DirectiveTakes(Rest());
        var d := ReadDirective();
        ds := ds + [d.value];
      }
      LocationNext(Rest(), ds);
      var close := Take();
    }

    method ReadServer() returns (s: Server)
      requires Valid() && Rest() != [] && Rest()[0] == "server" && ParseServer(Rest()).Done?
      modifies this`idx
      ensures Valid() && Done(s, Rest()) == ParseServer(old(Rest()))
    {
      hide ParseServerBody;
      var keyword := Take();
      var open := Take();
      s := ReadServerBody();
    }

    method ReadServerBody() returns (s: Server)
      requires Valid() && ParseServerBody(Rest(), Server([], [])).Done?
      modifies this`idx
      ensures Valid() && Done(s, Rest()) == ParseServerBody(old(Rest()), Server([], []))
    {
      hide ParseDirective, ParseLocation, ParseServerBody;
      ghost var start := Rest();
      s := Server([], []);
      while Before("}")
        invariant Valid() && ParseServerBody(Rest(), s) == ParseServerBody(start, Server([], []))
        decreases source.count - idx
      {
        assert Rest()[0] == source.tokens[idx];
        ServerNext(Rest(), s);
        DirectiveTakes(Rest());
        if source.tokens[idx] == "location" {
          var l := ReadLocation();
          s := s.(locations := [l] + s.locations);
        } else {
          var d := ReadDirective();
          s := s.(directives := s.directives + [d.value]);
        }
      }
      ServerNext(Rest(), s);
      var close := Take();
    }

    method ReadPeer() returns (p: Peer)
      requires Valid() && Rest() != []
      modifies this`idx
      ensures Valid() && (p, Rest()) == ParseParameters(old(Rest())[1..], ParseAddress(old(Rest())[0]))
    {
      var address := Take();
      p := ParseAddress(address);
      ghost var start, p0 := Rest(), p;
      while Before(";")
        invariant Valid() && ParseParameters(Rest(), p) == ParseParameters(start, p0)
        decreases source.count - idx
      {
        var t := Take();
        p := ParseParameter(t, p);
      }
      if idx < source.count {
        var semicolon := Take();
      }
    }

    method ReadUpstream() returns (u: Option<Upstream>)
      requires Valid() && Rest() != [] && Rest()[0] == "upstream" && ParseUpstream(Rest()).Done?
      modifies this`idx
      ensures Valid() && Done(u, Rest()) == ParseUpstream(old(Rest()))
    {
      var keyword := Take();
      if idx >= source.count { return None; }
      var name := Take();
      if idx >= source.count || source.tokens[idx] != "{" { return None; }
      var open := Take();
      var block := ReadUpstreamBody(Upstream(name, [], []));
      u := Some(block);
    }

    method ReadUpstreamBody(empty: Upstream) returns (block: Upstream)
      requires Valid() && ParseUpstreamBody(Rest(), empty).Done?
      modifies this`idx
      ensures Valid() && Done(block, Rest()) == ParseUpstreamBody(old(Rest()), empty)
    {
      hide ParseParameters, ParseAddress, ParseDirective, ParseUpstreamBody;
      ghost var start := Rest();
      block := empty;
      while Before("}")
        invariant Valid() && ParseUpstreamBody(Rest(), block) == ParseUpstreamBody(start, empty)
        decreases source.count - idx
      {
        UpstreamNext(Rest(), block);
        DirectiveTakes(Rest());
        if source.tokens[idx] == "server" {
          var server := Take();
          if idx >= source.count { return; }
          var p := ReadPeer();
          block := block.(servers := [p] + block.servers);
        } else {
          var d := ReadDirective();
          block := block.(directives := block.directives + [d.value]);
        }
      }
      UpstreamNext(Rest(), block);
      if idx < source.count {
        var close := Take();
      }
    }

    /** `parse_http_block`: NULL without its brace, nothing being taken. */
    method ReadHttp() returns (http: Option<Http>)
      requires Valid() && Rest() != [] && Rest()[0] == "http" && ParseHttp(Rest()).Done?
      modifies this`idx
      ensures Valid() && Done(http, Rest()) == ParseHttp(old(Rest()))
    {
      hide ParseServer, ParseUpstream, ParseDirective, ParseHttpBody;
      if source.tokens[idx + 1] != "{" { return None; }
      var keyword := Take();
      var open := Take();
      var h := ReadHttpBody();
      return Some(h);
    }

    method ReadHttpBody() returns (h: Http)
      requires Valid() && ParseHttpBody(Rest(), Http([], [], [])).Done?
      modifies this`idx
      ensures Valid() && Done(h, Rest()) == ParseHttpBody(old(Rest()), Http([], [], []))
    {
      hide ParseServer, ParseUpstream, ParseDirective, ParseHttpBody;
      ghost var start := Rest();
      h := Http([], [], []);
      while Before("}")
        invariant Valid() && ParseHttpBody(Rest(), h) == ParseHttpBody(start, Http([], [], []))
        decreases source.count - idx
      {
        HttpNext(Rest(), h);
        DirectiveTakes(Rest());
        if source.tokens[idx] == "server" {
          var s := ReadServer();
          h := h.(servers := [s] + h.servers);
        } else if source.tokens[idx] == "upstream" {
          var u := ReadUpstream();
          if u.Some? {
            h := h.(upstreams := [u.value] + h.upstreams);
          }
        } else {
          var d := ReadDirective();
          h := h.(directives := h.directives + [d.value]);
        }
      }
      HttpNext(Rest(), h);
      var close := Take();
    }

    /** The top-level loop of `parse_config`. */
    method ReadConfig() returns (http: Option<Http>)
      requires Valid() && ParseTop(Rest(), None).Done?
      modifies this`idx
      ensures Valid() && Done(http, []) == ParseTop(old(Rest()), None)
    {
      hide ParseTop, ParseHttp;
      http := None;
      ghost var start := Rest();
      while idx < source.count
        invariant Valid() && ParseTop(Rest(), http) == ParseTop(start, None)
        decreases source.count - idx
      {
        TopNext(Rest(), http);
        if source.tokens[idx] == "http" {
          http := ReadHttp();
        } else {
          var skipped := Take();
        }
      }
      TopNext(Rest(), http);
    }
  }

  /** `parse_config` from the text on: tokenize into the static array, then parse. */
  method LoadText(source: Tokens, text: seq<Octet>) returns (http: Option<Http>)
    requires source.Valid() && Load(text).Done?
    modifies source, source.tokens
    ensures Load(text).value == http
  {
    source.Tokenize(text);
    var parser := new Parser(source);
    http := parser.ReadConfig();
  }
}
