/** The lists of paths put to the token server and forwarded, read as JSON. */
module PathLists {
  import opened ByteStrings
  import opened Dispatcher
  import opened DispatcherTheorems
  import J = JsonText

  function Strings(ps: seq<bytes>): (ts: seq<J.Term>)
    ensures |ts| == |ps| && forall i :: 0 <= i < |ps| ==> ts[i] == J.Str(ps[i])
  {
    seq(|ps|, i requires 0 <= i < |ps| => J.Str(ps[i]))
  }

  lemma {:induction false} ListedFirst(ps: seq<bytes>)
    requires |ps| >= 2
    ensures Listed(ps) == Quoted(ps[0]) + COMMA_SPACE + Listed(ps[1..])
    decreases |ps|
  {
    hide Quoted;
    var init, last := ps[..|ps| - 1], ps[|ps| - 1];
    if |ps| == 2 {
      assert init == [ps[0]] && ps[1..] == [last];
    } else {
      ListedFirst(init);
      assert init[1..] == ps[1..][..|ps| - 2] && init[0] == ps[0];
      assert Listed(ps[1..]) == Listed(init[1..]) + COMMA_SPACE + Quoted(last);
      assert Listed(ps) == Quoted(ps[0]) + COMMA_SPACE + Listed(init[1..]) + COMMA_SPACE + Quoted(last);
    }
  }

  lemma {:induction false} ReadQuoted(p: bytes, rest: J.text)
    requires J.Plain(p)
    ensures J.ReadValue(Quoted(p) + rest) == Some((J.Str(p), rest))
  {
    hide J.ReadChars, J.SkipSpace;
    J.ReadPutText(p, rest);
    assert Quoted(p) + rest == J.PutText(p, rest);
  }

  lemma {:induction false} LastItem(p: bytes, rest: J.text)
    requires J.Plain(p)
    ensures J.ReadItems(Quoted(p) + ([0x5D] + rest)) == Some(([J.Str(p)], rest))
  {
    hide J.ReadValue, J.SkipSpace, J.Plain, Quoted;
    ReadQuoted(p, [0x5D] + rest);
    J.NoSkip([0x5D] + rest);
    assert ([0x5D] + rest)[1..] == rest;
  }

  lemma {:induction false} NextItem(p: bytes, more: J.text, ts: seq<J.Term>, rest: J.text)
    requires J.Plain(p) && J.ReadItems(more) == Some((ts, rest))
    ensures J.ReadItems(Quoted(p) + ([0x2C] + ([0x20] + more))) == Some(([J.Str(p)] + ts, rest))
  {
    hide J.ReadValue, J.SkipSpace, J.Plain, Quoted;
    var after: J.text := [0x2C] + ([0x20] + more);
    ReadQuoted(p, after);
    J.NoSkip(after);
    assert after[1..] == [0x20] + more;
    SpaceFirst(more);
  }

  lemma {:induction false} ReadListed(ps: seq<bytes>, rest: J.text)
    requires ps != [] && forall p :: p in ps ==> J.Plain(p)
    ensures J.ReadItems(Listed(ps) + [0x5D] + rest) == Some((Strings(ps), rest))
    decreases |ps|
  {
    hide J.ReadItems, J.Plain, Quoted, Listed;
    var s := Listed(ps) + [0x5D] + rest;
    if |ps| == 1 {
      OneListed(ps);
      LastItem(ps[0], rest);
      assert s == Quoted(ps[0]) + ([0x5D] + rest);
      assert Strings(ps) == [J.Str(ps[0])];
    } else {
      ListedFirst(ps);
      var more: J.text := Listed(ps[1..]) + [0x5D] + rest;
      ReadListed(ps[1..], rest);
      NextItem(ps[0], more, Strings(ps[1..]), rest);
      assert s == Quoted(ps[0]) + ([0x2C] + ([0x20] + more));
      assert Strings(ps) == [J.Str(ps[0])] + Strings(ps[1..]);
    }
  }

  lemma {:induction false} SpaceFirst(s: J.text)
    ensures J.ReadItems([0x20] + s) == J.ReadItems(s)
  {
    hide J.ReadValue;
    SpaceBeforeValue(s);
  }

  lemma {:induction false} SpaceBeforeValue(s: J.text)
    ensures J.ReadValue([0x20] + s) == J.ReadValue(s)
  {
    hide J.ReadMembers, J.ReadItems, J.ReadChars, J.WordLength;
    assert J.SkipSpace([0x20] + s) == J.SkipSpace(s) by { assert ([0x20] + s)[1..] == s; }
    hide J.SkipSpace;
  }

  /**
   The text about which the token server is asked is the JSON list of exactly these paths; for one
   path of a single-path request it is the JSON string.
   */
  lemma {:induction false} AskedReads(multi: bool, ps: seq<bytes>)
    requires ps != [] && forall p :: p in ps ==> J.Plain(p)
    ensures J.ReadValue(AskText(multi, ps))
         == Some((if !multi && |ps| == 1 then J.Str(ps[0]) else J.Arr(Strings(ps)), []))
  {
    hide J.SkipSpace, J.ReadItems, J.ReadChars, J.Plain, Listed;
    if !multi && |ps| == 1 {
      assert Listed(ps) == Quoted(ps[0]) by { OneListed(ps); }
      ReadQuoted(ps[0], []);
      assert Quoted(ps[0]) + [] == Quoted(ps[0]);
    } else {
      var s := Bracketed(Listed(ps));
      var s1: J.text := Listed(ps) + [0x5D];
      J.NoSkip(s);
      assert s[1..] == s1;
      assert s1 == Listed(ps) + [0x5D] + [];
      ReadListed(ps, []);
      assert s1 != [] && s1[0] == 0x22 by { FirstIsQuote(ps); }
      J.NoSkip(s1);
    }
  }

  lemma OneListed(ps: seq<bytes>)
    requires |ps| == 1
    ensures Listed(ps) == Quoted(ps[0])
  {
  }

  lemma {:induction false} FirstIsQuote(ps: seq<bytes>)
    requires ps != []
    ensures Listed(ps) != [] && Listed(ps)[0] == 0x22
  {
    if |ps| > 1 {
      ListedFirst(ps);
    }
  }
}
