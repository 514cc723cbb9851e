/** The presence table `Server.logins`: a Python dict from socket to login.
    A dict keeps its keys in insertion order, and the message router sends to
    the first socket in that order, so the table is an association list in
    insertion order with at most one entry per socket. */
module Presence {
  import opened Protocol
  import Lists

  datatype Binding = Binding(sock: Socket, login: Login)

  type Table = seq<Binding>

  /** The dict's keys, in insertion order (`logins.keys()`). */
  function Sockets(t: Table): (ks: seq<Socket>)
    ensures |ks| == |t|
    ensures forall i | 0 <= i < |t| :: ks[i] == t[i].sock
    ensures forall x :: x in ks <==> exists b | b in t :: b.sock == x
  {
    if t == [] then [] else [t[0].sock] + Sockets(t[1..])
  }

  /** Dict keys are distinct. */
  predicate UniqueSockets(t: Table) {
    Lists.NoDup(Sockets(t))
  }

  /** `t.get(s)`: the login bound to socket `s`, if any. */
  function Lookup(t: Table, s: Socket): (r: Option<Login>)
    ensures r.None? <==> forall b | b in t :: b.sock != s
    ensures r.Some? ==> Binding(s, r.value) in t
    ensures UniqueSockets(t) ==> forall l | Binding(s, l) in t :: r == Some(l)
  {
    var i := Lists.IndexOf(Sockets(t), s);
    if i < |t| then Some(t[i].login) else None
  }

  /** `t[s] = l`: an existing key keeps its place and gets the new login,
      a new key is added at the end. */
  function Bind(t: Table, s: Socket, l: Login): (r: Table)
    ensures Lookup(t, s).None? ==> r == t + [Binding(s, l)]
    ensures Binding(s, l) in r
    ensures forall b | b in t && b.sock != s :: b in r
    ensures forall b | b in r :: b in t || b == Binding(s, l)
    ensures UniqueSockets(t) ==> UniqueSockets(r)
  {
    var i := Lists.IndexOf(Sockets(t), s);
    if i < |t| then
      assert t[i].sock == s;
      ReplaceEntry(t, i, l);
      t[i := Binding(s, l)]
    else
      AppendEntry(t, s, l);
      t + [Binding(s, l)]
  }

  /** Giving the entry at `i` a new login keeps every other entry and the keys. */
  lemma ReplaceEntry(t: Table, i: nat, l: Login)
    requires i < |t|
    ensures forall b | b in t && b.sock != t[i].sock :: b in t[i := Binding(t[i].sock, l)]
    ensures Sockets(t[i := Binding(t[i].sock, l)]) == Sockets(t)
  {
    var r := t[i := Binding(t[i].sock, l)];
    forall b | b in t && b.sock != t[i].sock ensures b in r {
      var j :| 0 <= j < |t| && t[j] == b;
      assert r[j] == b;
    }
  }

  /** Appending an entry for a socket that is not yet a key keeps the keys distinct. */
  lemma AppendEntry(t: Table, s: Socket, l: Login)
    requires forall b | b in t :: b.sock != s
    ensures UniqueSockets(t) ==> UniqueSockets(t + [Binding(s, l)])
  {
    var ts, rs := Sockets(t), Sockets(t + [Binding(s, l)]);
    assert rs == ts + [s];
    if UniqueSockets(t) {
      Lists.AppendKeepsNoDup(ts, s);
    }
  }

  /** `del t[s]`, with a missing key ignored as the server's `except: pass` does. */
  function Unbind(t: Table, s: Socket): (r: Table)
    ensures Lookup(t, s) == None ==> r == t
    ensures forall b | b in t && b.sock != s :: b in r
    ensures forall b | b in r :: b in t
    ensures UniqueSockets(t) ==> UniqueSockets(r) && forall b | b in r :: b.sock != s
  {
    var i := Lists.IndexOf(Sockets(t), s);
    if i < |t| then
      assert t[i].sock == s;
      RemoveEntry(t, i);
      if UniqueSockets(t) then
        RemoveEntryUnique(t, i);
        t[..i] + t[i + 1..]
      else
        t[..i] + t[i + 1..]
    else
      t
  }

  /** Deleting the entry at `i` keeps every entry of another socket and adds nothing. */
  lemma RemoveEntry(t: Table, i: nat)
    requires i < |t|
    ensures forall b | b in t && b.sock != t[i].sock :: b in t[..i] + t[i + 1..]
    ensures forall b | b in t[..i] + t[i + 1..] :: b in t
  {
    var r := t[..i] + t[i + 1..];
    forall b | b in t && b.sock != t[i].sock ensures b in r {
      var j :| 0 <= j < |t| && t[j] == b;
      assert r[if j < i then j else j - 1] == b;
    }
  }

  /** With distinct keys, deleting the entry at `i` keeps the keys distinct
      and leaves no entry for its socket. */
  lemma RemoveEntryUnique(t: Table, i: nat)
    requires i < |t| && UniqueSockets(t)
    ensures UniqueSockets(t[..i] + t[i + 1..])
    ensures forall b | b in t[..i] + t[i + 1..] :: b.sock != t[i].sock
  {
    var r := t[..i] + t[i + 1..];
    var ts, rs := Sockets(t), Sockets(r);
    assert forall k | 0 <= k < |r| :: rs[k] == ts[if k < i then k else k + 1];
    forall a, c | 0 <= a < c < |rs| ensures rs[a] != rs[c] {
      var a', c' := if a < i then a else a + 1, if c < i then c else c + 1;
      assert rs[a] == ts[a'] && rs[c] == ts[c'] && a' < c';
    }
    forall b | b in r ensures b.sock != t[i].sock {
      var k :| 0 <= k < |r| && r[k] == b;
      assert b.sock == rs[k];
    }
  }

  /** `t[s] = l` on an existing key rewrites that entry in place, so every
      entry keeps its position. */
  lemma BindKeepsOrder(t: Table, s: Socket, l: Login)
    requires Lookup(t, s).Some?
    ensures exists i | 0 <= i < |t| && t[i].sock == s :: Bind(t, s, l) == t[i := Binding(s, l)]
  {
    var i := Lists.IndexOf(Sockets(t), s);
    assert t[i].sock == s;
  }

  /** `del t[s]` on an existing key cuts out exactly that entry; the others
      keep their order. */
  lemma UnbindKeepsOrder(t: Table, s: Socket)
    requires Lookup(t, s).Some?
    ensures exists i | 0 <= i < |t| && t[i].sock == s :: Unbind(t, s) == t[..i] + t[i + 1..]
  {
    var i := Lists.IndexOf(Sockets(t), s);
    assert t[i].sock == s;
  }

  /** Binding a socket changes the lookup of that socket and of no other. */
  lemma BindLookup(t: Table, s: Socket, l: Login, s': Socket)
    requires UniqueSockets(t)
    ensures Lookup(Bind(t, s, l), s') == if s' == s then Some(l) else Lookup(t, s')
  {
    var r := Bind(t, s, l);
    if s' != s {
      if Lookup(t, s').Some? {
        assert Binding(s', Lookup(t, s').value) in r;
      }
    }
  }

  /** Unbinding a socket removes its entry and leaves every other lookup alone. */
  lemma UnbindLookup(t: Table, s: Socket, s': Socket)
    requires UniqueSockets(t)
    ensures Lookup(Unbind(t, s), s') == if s' == s then None else Lookup(t, s')
  {
    var r := Unbind(t, s);
    if s' != s {
      if Lookup(t, s').Some? {
        assert Binding(s', Lookup(t, s').value) in r;
      }
    }
  }

  /** `l in t.values()`: some socket is bound to login `l`. */
  predicate IsOnline(t: Table, l: Login) {
    exists b | b in t :: b.login == l
  }

  /** The first socket, in insertion order, bound to login `l`. */
  function FirstSocket(t: Table, l: Login): (r: Option<Socket>)
    ensures r.None? <==> !IsOnline(t, l)
    ensures r.Some? ==> exists i | 0 <= i < |t| ::
      t[i] == Binding(r.value, l) && forall j | 0 <= j < i :: t[j].login != l
  {
    if t == [] then None
    else if t[0].login == l then Some(t[0].sock)
    else
      var r := FirstSocket(t[1..], l);
      assert r.Some? ==> exists i | 0 <= i < |t| ::
        t[i] == Binding(r.value, l) && forall j | 0 <= j < i :: t[j].login != l
      by {
        if r.Some? {
          var i :| 0 <= i < |t[1..]| && t[1..][i] == Binding(r.value, l) && forall j | 0 <= j < i :: t[1..][j].login != l;
          assert t[i + 1] == Binding(r.value, l);
          assert forall j | 0 <= j < i + 1 :: t[j].login != l by {
            forall j | 0 <= j < i + 1 ensures t[j].login != l {
              if j > 0 { assert t[j] == t[1..][j - 1]; }
            }
          }
        }
      }
      r
  }

  /** The loop `for socket, login in t.items(): if login == l: ...; break`
      that picks the recipient socket of a push. */
  method FindSocket(t: Table, l: Login) returns (r: Option<Socket>)
    ensures r == FirstSocket(t, l)
  {
    r := None;
    var i := 0;
    while i < |t|
      invariant 0 <= i <= |t|
      invariant forall j | 0 <= j < i :: t[j].login != l
      invariant FirstSocket(t, l) == FirstSocket(t[i..], l)
    {
      if t[i].login == l {
        r := Some(t[i].sock);
        return;
      }
      assert t[i..][1..] == t[i + 1..];
      i := i + 1;
    }
  }

  /** After `del t[s]` a login is online exactly when some other socket is
      still bound to it. */
  lemma UnbindOnline(t: Table, s: Socket, l: Login)
    requires UniqueSockets(t)
    ensures IsOnline(Unbind(t, s), l) <==> exists b | b in t :: b.sock != s && b.login == l
  {
    var r := Unbind(t, s);
    if b :| b in t && b.sock != s && b.login == l {
      assert Lookup(t, b.sock) == Some(l);
      assert Lookup(r, b.sock) == Some(l);
    }
  }
}
