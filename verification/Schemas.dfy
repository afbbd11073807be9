/**
 The field tables of the messages in mc.pb.cpp, and typed access to their fields.
 */
module Schemas {
  import opened Wire
  import opened Message

  function Req(num: nat, kind: Kind): Field { Field(num, true, kind) }

  function Opt(num: nat, kind: Kind): Field { Field(num, false, kind) }

  function Repeated(num: nat, sub: Schema): Field { Field(num, false, Sub(sub)) }

  const OPEN_SESSION_REQUEST: Schema :=
    [Req(1, Bytes), Req(2, Bool), Opt(3, Bytes), Req(4, Login), Req(5, Bytes)]
  const OPEN_SESSION_RESPONSE: Schema := [Req(1, UInt32)]
  const OPEN_TRUSTLET_REQUEST: Schema := [Req(1, UInt32), Req(2, Bytes), Opt(3, Bytes)]
  const OPEN_TRUSTLET_RESPONSE: Schema := [Req(1, UInt32)]
  const CLOSE_SESSION_REQUEST: Schema := [Req(1, UInt32)]
  const EMPTY_MESSAGE: Schema := []
  const NOTIFY_BUFFERS: Schema := [Req(1, UInt64), Req(2, Bytes)]
  const NOTIFY_REQUEST: Schema := [Req(1, UInt32), Opt(2, Bytes), Repeated(3, NOTIFY_BUFFERS)]
  const WAIT_REQUEST: Schema := [Req(1, UInt32), Req(2, SInt32), Req(3, Bool)]
  const WAIT_BUFFERS: Schema := [Req(1, UInt64), Req(2, Bytes)]
  const WAIT_RESPONSE: Schema := [Opt(1, Bytes), Repeated(2, WAIT_BUFFERS)]
  const MAP_REQUEST_BUFFERS: Schema := [Req(1, UInt32), Req(2, UInt32)]
  const MAP_REQUEST: Schema := [Req(1, UInt32), Repeated(2, MAP_REQUEST_BUFFERS)]
  const MAP_RESPONSE_BUFFERS: Schema := [Req(1, UInt64)]
  const MAP_RESPONSE: Schema := [Repeated(1, MAP_RESPONSE_BUFFERS)]
  const UNMAP_BUFFERS: Schema := [Req(1, UInt64)]
  const UNMAP_REQUEST: Schema := [Req(1, UInt32), Repeated(2, UNMAP_BUFFERS)]
  const GET_ERROR_REQUEST: Schema := [Req(1, UInt32)]
  const GET_ERROR_RESPONSE: Schema := [Req(1, SInt32)]
  const GET_VERSION_RESPONSE: Schema :=
    [Req(1, Bytes), Req(2, UInt32), Req(3, UInt32), Req(4, UInt32), Req(5, UInt32), Req(6, UInt32),
     Req(7, UInt32), Req(8, UInt32), Req(9, UInt32)]

  /** A table read off field by field: numbers rise from one to the next, and field `login` is the
      only one that may be the enum. */
  predicate Rising(s: Schema, login: nat)
  {
    && (forall i :: 0 < i < |s| ==> s[i - 1].num < s[i].num)
    && (|s| > 0 ==> 1 <= s[0].num && s[|s| - 1].num <= 15)
    && (forall i :: 0 <= i < |s| && s[i].kind.Login? ==> i == login && s[i].required)
  }

  predicate Flat(s: Schema)
  {
    Rising(s, |s|) && forall i :: 0 <= i < |s| ==> !s[i].kind.Sub?
  }

  /** Only the last field is nested, and its table is flat. */
  predicate FitsByNeighbours(s: Schema, login: nat)
  {
    && Rising(s, login)
    && (forall i :: 0 <= i < |s| && s[i].kind.Sub? ==> i == |s| - 1 && Flat(s[i].kind.schema))
  }

  lemma {:induction false} NumbersRise(s: Schema, login: nat, i: nat, j: nat)
    requires Rising(s, login) && i <= j < |s|
    ensures s[i].num <= s[j].num && (i < j ==> s[i].num < s[j].num)
    decreases j - i
  {
    if i < j {
      NumbersRise(s, login, i, j - 1);
      assert s[j - 1].num < s[j].num;
    }
  }

  lemma {:induction false} NeighboursFit(s: Schema, login: nat)
    requires FitsByNeighbours(s, login)
    ensures WellFormed(s) && (login >= |s| ==> NoLogin(s))
    decreases if |s| > 0 && s[|s| - 1].kind.Sub? then 1 else 0
  {
    forall i, j | 0 <= i <= j < |s|
      ensures s[i].num <= s[j].num && (i < j ==> s[i].num < s[j].num)
    {
      NumbersRise(s, login, i, j);
    }
    if |s| > 0 && s[|s| - 1].kind.Sub? {
      var sub := s[|s| - 1].kind.schema;
      NeighboursFit(sub, |sub|);
    }
  }

  /* Every table of the file fits the template, so what is proved of schemas holds of every
     message; all but OpenSessionRequest are free of enums. */

  lemma OpenTablesFit()
    ensures WellFormed(OPEN_SESSION_REQUEST)
    ensures WellFormed(OPEN_SESSION_RESPONSE) && NoLogin(OPEN_SESSION_RESPONSE)
    ensures WellFormed(OPEN_TRUSTLET_REQUEST) && NoLogin(OPEN_TRUSTLET_REQUEST)
    ensures WellFormed(OPEN_TRUSTLET_RESPONSE) && NoLogin(OPEN_TRUSTLET_RESPONSE)
  {
    NeighboursFit(OPEN_SESSION_REQUEST, 3);
    NeighboursFit(OPEN_SESSION_RESPONSE, |OPEN_SESSION_RESPONSE|);
    NeighboursFit(OPEN_TRUSTLET_REQUEST, |OPEN_TRUSTLET_REQUEST|);
    NeighboursFit(OPEN_TRUSTLET_RESPONSE, |OPEN_TRUSTLET_RESPONSE|);
  }

  lemma PlainTablesFit()
    ensures WellFormed(CLOSE_SESSION_REQUEST) && NoLogin(CLOSE_SESSION_REQUEST)
    ensures WellFormed(EMPTY_MESSAGE) && NoLogin(EMPTY_MESSAGE)
    ensures WellFormed(WAIT_REQUEST) && NoLogin(WAIT_REQUEST)
    ensures WellFormed(GET_ERROR_REQUEST) && NoLogin(GET_ERROR_REQUEST)
    ensures WellFormed(GET_ERROR_RESPONSE) && NoLogin(GET_ERROR_RESPONSE)
  {
    NeighboursFit(CLOSE_SESSION_REQUEST, |CLOSE_SESSION_REQUEST|);
    NeighboursFit(EMPTY_MESSAGE, |EMPTY_MESSAGE|);
    NeighboursFit(WAIT_REQUEST, |WAIT_REQUEST|);
    NeighboursFit(GET_ERROR_REQUEST, |GET_ERROR_REQUEST|);
    NeighboursFit(GET_ERROR_RESPONSE, |GET_ERROR_RESPONSE|);
  }

  lemma VersionTableFits()
    ensures WellFormed(GET_VERSION_RESPONSE) && NoLogin(GET_VERSION_RESPONSE) && Flat(GET_VERSION_RESPONSE)
  {
    NeighboursFit(GET_VERSION_RESPONSE, |GET_VERSION_RESPONSE|);
  }

  lemma NotifyTablesFit()
    ensures WellFormed(NOTIFY_BUFFERS) && NoLogin(NOTIFY_BUFFERS)
    ensures WellFormed(NOTIFY_REQUEST) && NoLogin(NOTIFY_REQUEST)
    ensures WellFormed(WAIT_BUFFERS) && NoLogin(WAIT_BUFFERS)
    ensures WellFormed(WAIT_RESPONSE) && NoLogin(WAIT_RESPONSE)
  {
    NeighboursFit(NOTIFY_BUFFERS, |NOTIFY_BUFFERS|);
    NeighboursFit(NOTIFY_REQUEST, |NOTIFY_REQUEST|);
    NeighboursFit(WAIT_BUFFERS, |WAIT_BUFFERS|);
    NeighboursFit(WAIT_RESPONSE, |WAIT_RESPONSE|);
  }

  lemma MapTablesFit()
    ensures WellFormed(MAP_REQUEST_BUFFERS) && NoLogin(MAP_REQUEST_BUFFERS)
    ensures WellFormed(MAP_REQUEST) && NoLogin(MAP_REQUEST)
    ensures WellFormed(MAP_RESPONSE_BUFFERS) && NoLogin(MAP_RESPONSE_BUFFERS)
    ensures WellFormed(MAP_RESPONSE) && NoLogin(MAP_RESPONSE)
  {
    NeighboursFit(MAP_REQUEST_BUFFERS, |MAP_REQUEST_BUFFERS|);
    NeighboursFit(MAP_REQUEST, |MAP_REQUEST|);
    NeighboursFit(MAP_RESPONSE_BUFFERS, |MAP_RESPONSE_BUFFERS|);
    NeighboursFit(MAP_RESPONSE, |MAP_RESPONSE|);
  }

  lemma UnmapTablesFit()
    ensures WellFormed(UNMAP_BUFFERS) && NoLogin(UNMAP_BUFFERS)
    ensures WellFormed(UNMAP_REQUEST) && NoLogin(UNMAP_REQUEST)
  {
    NeighboursFit(UNMAP_BUFFERS, |UNMAP_BUFFERS|);
    NeighboursFit(UNMAP_REQUEST, |UNMAP_REQUEST|);
  }
}
