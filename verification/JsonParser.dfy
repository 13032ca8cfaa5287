/** json_parse_ex as it works: flags, cursor and values changed in place, turn by
    turn, and in the second pass the memory of every value. Every turn is Step of
    JsonSpec; that no write leaves its block is checked where it is written. */
module JsonParser {
  import opened JsonSpec
  import opened JsonFirst
  import opened JsonPasses
  import opened JsonSecond
  import opened JsonAgree
  import opened JsonMemory

  /** Where a turn goes: to the end of the loop body, out of the loop, or to the
      error exit. */
  datatype Flow = Fall | Stop | Error

  /** A value without the memory it points to. */
  datatype Rec = Rec(kind: Kind, parent: int, length: nat, nameBytes: nat, integer: int)

  function RecOf(v: Node): Rec { Rec(v.kind, v.parent, v.length, v.nameBytes, v.integer) }

  ghost predicate SameRecs(recs: seq<Rec>, nodes: seq<Node>) {
    |recs| == |nodes| && forall k | 0 <= k < |recs| :: recs[k] == RecOf(nodes[k])
  }

  /** The first value, the last one made or the next one to take, and from each
      value the one that was made after it; -1 is null. */
  datatype Links = Links(root: int, alloc: int, chain: seq<int>)

  const NO_LINKS := Links(-1, -1, [])

  /** The values of the first pass are chained in the order in which they were made;
      the first pass is at the end of the chain, the second has taken n of m values. */
  ghost predicate Chain(first: bool, n: nat, m: nat, l: Links) {
    && l.root == (if n == 0 then -1 else 0)
    && l.alloc == (if first then n - 1 else if n < m then n else -1)
    && |l.chain| == (if first then n else m)
    && forall k | 0 <= k < |l.chain| :: l.chain[k] == if k + 1 < |l.chain| then k + 1 else -1
  }

  lemma ChainStarts()
    ensures Chain(true, 0, 0, NO_LINKS)
  {
  }

  lemma ChainAgain(n: nat, m: nat, l: Links)
    requires Chain(true, n, m, l)
    ensures Chain(false, 0, n, l.(alloc := l.root, root := -1))
  {
  }

  /** The first pass puts a value at the end of the chain ... */
  function Appended(l: Links, n: nat): Links
    requires l.alloc < |l.chain|
  {
    Links(if l.root < 0 then n else l.root, n, (if l.alloc < 0 then l.chain else l.chain[l.alloc := n]) + [-1])
  }

  lemma ChainGrows(n: nat, m: nat, l: Links)
    requires Chain(true, n, m, l)
    ensures l.alloc < |l.chain| && Chain(true, n + 1, m, Appended(l, n))
  {
  }

  /** ... and the second takes the next one. */
  function Taken(l: Links): Links
    requires 0 <= l.alloc < |l.chain|
  {
    l.(root := if l.root < 0 then l.alloc else l.root, alloc := l.chain[l.alloc])
  }

  lemma ChainTaken(n: nat, m: nat, l: Links)
    requires Chain(false, n, m, l) && n < m
    ensures l.alloc == n < |l.chain| && Chain(false, n + 1, m, Taken(l))
  {
  }

  /** What a turn relies on beyond its memory: the flags fit the value at the top,
      names and values go in step, and the next value is a string where the first
      pass met one. */
  predicate Sure(c: Config, s: State) {
    && -1 <= s.core.top < |s.nodes| && CommentsOn(c, s)
    && (!c.first && s.core.mode == Normal && !s.core.seek && !s.core.done ==> TopIs(s, Object))
    && (!c.first ==> KeyNext(s))
    && (!c.first && s.core.mode == Normal && s.core.seek && !s.core.done && !s.core.needComma && !s.core.needColon ==>
          Foreseen(c, s, At(c.text, s.core.ptr)))
  }

  predicate Foreseen(c: Config, s: State, b: char) {
    StartsValue(b) && |s.nodes| < |c.plan| ==> (c.plan[|s.nodes|].kind == String <==> b == '"')
  }

  class Parser {
    const text: string
    const comments: bool
    const store: Store
    var first: bool
    var core: Core
    var recs: seq<Rec>
    var counted: seq<Rec>
    var num: Num
    var links: Links
    // flags that one turn sets and clears: a value is complete; stay at this character
    var next: bool
    var stay: bool
    // the state of the machine that the values and their memory stand for
    ghost var nodes: seq<Node>
    ghost var plan: seq<Node>
    ghost var buf: string

    ghost function Cfg(): Config
      reads this`first, this`plan
    {
      Config(text, comments, first, plan)
    }

    ghost function View(): State
      reads this`core, this`nodes, this`num, this`buf
    {
      State(core, nodes, num, buf)
    }

    ghost predicate Sound()
      reads this, store, store.repr
    {
      && store.Valid() && this !in store.repr && store !in store.repr
      && SameRecs(recs, nodes) && SameRecs(counted, plan) && Linked()
    }

    /** The values are chained in the order in which they were made. */
    ghost predicate Linked()
      reads this`first, this`recs, this`counted, this`links
    {
      Chain(first, |recs|, |counted|, links)
    }

    /** The state at the beginning of a turn. */
    ghost predicate Ready()
      reads this, store, store.repr
    {
      Sound() && InMemory(first, store.view, plan, View()) && core.ptr <= |text| && !next && !stay
    }

    /** The flow stands for the outcome that the machine has. */
    ghost predicate Meets(o: Outcome, fl: Flow)
      reads this, store, store.repr
    {
      match fl
      case Fall =>
        var p := if stay then core.ptr else core.ptr + 1;
        && Sound() && InMemory(first, store.view, plan, View()) && (next ==> !core.mode.InString?)
        && o == if next then Finish(Cfg(), View(), p) else Go(View(), p)
      case Stop => Sound() && InMemory(first, store.view, plan, View()) && o == Done(View())
      case Error => o == Fail
    }

    constructor (json: string, enableComments: bool)
      ensures text == json && comments == enableComments && Sound()
      ensures fresh(store) && fresh(store.repr)
    {
      text, comments := json, enableComments;
      store := new Store();
      first, core, recs, counted, num, next, stay := true, START.core, [], [], FRESH, false, false;
      links := NO_LINKS;
      nodes, plan, buf := [], [], "";
    }

    // ----- values -----

    /** The first pass adds a value to the chain ... */
    method MakeValue(kind: Kind, value: int) returns (n: nat)
      requires Linked() && first
      modifies this`recs, this`links
      ensures Linked() && n == |old(recs)| && recs == old(recs) + [Rec(kind, core.top, 0, 0, value)]
    {
      hide Chain;
      ChainGrows(|recs|, |counted|, links);
      n := |recs|;
      recs := recs + [Rec(kind, core.top, 0, 0, value)];
      links := Appended(links, n);
    }

    /** ... and the second takes the next one from it, with memory of the counted
        size. */
    method TakeValue() returns (n: nat)
      requires Linked() && !first && |recs| < |counted| && store.Valid() && this !in store.repr
      modifies this`recs, this`links, store
      ensures Linked() && n == |old(recs)| && recs == old(recs) + [counted[n].(length := 0, nameBytes := 0)]
      ensures store.Valid() && fresh(store.repr - old(store.repr)) && old(store.repr) <= store.repr
      ensures forall v | RecOf(v) == counted[n] :: Allocated(old(store.view), store.view, v)
      ensures |store.view| == |old(store.view)| + 1
      ensures var a, v := store.view[|old(store.view)|], counted[n];
              && |a.cells| == (if v.kind == Array || v.kind == Object then v.length else 0)
              && |a.bytes| == if v.kind == String then v.length + 1
                              else if v.kind == Object && v.length > 0 then v.nameBytes else 0
    {
      hide Store.Valid, Chain;
      ChainTaken(|recs|, |counted|, links);
      n := links.alloc;
      links := Taken(links);
      var v := counted[n];
      var slots := if Container(v.kind) then v.length else 0;
      var bytes := if v.kind == String then v.length + 1
                   else if v.kind == Object && v.length > 0 then v.nameBytes else 0;
      store.Allocate(slots, bytes);
      recs := recs + [v.(length := 0, nameBytes := 0)];
    }

    method NewValue(kind: Kind, value: int) returns (n: nat)
      requires Sound() && HasNext(Cfg(), View())
      modifies this`recs, this`nodes, this`links, store
      ensures Sound() && fresh(store.repr - old(store.repr)) && old(store.repr) <= store.repr
      ensures |recs| == |old(recs)| + 1
      ensures n == |old(nodes)| && nodes == old(nodes) + [NewNode(Cfg(), old(View()), kind, value)]
      ensures !first ==> Allocated(old(store.view), store.view, plan[n])
    {
      hide Store.Valid, Chain, NewNode, Allocated;
      NewRec(Cfg(), View(), kind, value);
      if first { n := MakeValue(kind, value); } else { n := TakeValue(); }
      nodes := nodes + [NewNode(Cfg(), View(), kind, value)];
    }

    // ----- strings -----

    method StringAdd(bytes: string, count: nat) returns (fl: Flow)
      requires Ready() && core.mode.InString? && !Add(Cfg(), View(), bytes, count, core.ptr + 1).Fault?
      modifies this`core, this`buf, store`view, store.repr
      ensures Meets(Add(Cfg(), old(View()), bytes, count, old(core.ptr) + 1), fl)
    {
      hide Finish, Holds, Store.Valid, Chain, Parents;
      fl := Fall;
      if first {
        core := core.(len := core.len + count, mode := InString(false));
        return;
      }
      StringMemory(store.view, plan, View(), bytes);
      var t := core.top;
      var at := if recs[t].kind == Object then recs[t].nameBytes else 0;
      store.WriteAll(t, at + core.len, bytes);
      buf := buf + bytes;
      core := core.(len := core.len + |bytes|, mode := InString(false));
    }

    /** Reads the digits of an escape, and of a second one after a surrogate. */
    method ReadPoint() returns (ok: bool, u: nat)
      requires core.ptr < |text|
      modifies this`core
      ensures ok == PointAt(text, old(core.ptr)).Point?
      ensures ok ==> PointAt(text, old(core.ptr)) == Point(u, core.ptr + 1) && core.ptr < |text|
      ensures ok ==> core == old(core).(ptr := core.ptr)
    {
      hide FourHex, Combined;
      u := 0;
      if |text| - core.ptr <= 4 { return false, u; }
      var h := FourHex(text, core.ptr + 1);
      if h.NoHex? { return false, u; }
      core := core.(ptr := core.ptr + 4);
      u := h.value;
      if 0xD800 <= u <= 0xDFFF {
        if |text| - core.ptr <= 6 || text[core.ptr + 1] != '\\' || text[core.ptr + 2] != 'u' { return false, u; }
        var l := FourHex(text, core.ptr + 3);
        if l.NoHex? { return false, u; }
        core := core.(ptr := core.ptr + 6);
        u := Combined(u, l.value);
      }
      ok := true;
    }

    method Escape(b: char) returns (fl: Flow)
      requires Ready() && core.mode == InString(true) && core.ptr < |text|
      requires !JsonSpec.Escape(Cfg(), View(), b).Fault?
      modifies this`core, this`buf, store`view, store.repr
      ensures Meets(JsonSpec.Escape(Cfg(), old(View()), b), fl)
    {
      hide PointAt, Utf8, Utf8Length, Plain, Add, InMemory, SameRecs, Finish, Store.Valid, Chain;
      if b != 'u' {
        fl := StringAdd(Plain(b), 1);
      } else {
        var ok, u := ReadPoint();
        if !ok { return Error; }
        AddAnywhere(Cfg(), old(View()), core.ptr, Utf8(u), Utf8Length(u), core.ptr + 1);
        QuietString(first, store.view, plan, old(View()), View());
        fl := StringAdd(Utf8(u), Utf8Length(u));
      }
    }

    /** The closing quote of a string of the second pass: a NUL behind its bytes and,
        for a name, its place in the next slot. */
    method WriteEnd()
      requires Sound() && !first && InMemory(first, store.view, plan, View()) && core.mode.InString? && KeyNext(View())
      requires Room(plan, nodes, core.top, core.len + 1)
      requires nodes[core.top].kind == Object ==> nodes[core.top].length < plan[core.top].length
      modifies store`view, store.repr
      ensures Sound()
      ensures AfterString(first, store.view, plan, nodes[core.top := ClosedValue(false, View(), nodes[core.top])])
    {
      hide Holds, MemOk, ClosedValue, Parents;
      ClosedMemory(store.view, plan, View());
      ghost var a := Closed(store.view[core.top], nodes[core.top], core.len);
      var t := core.top;
      var v := recs[t];
      var at := if v.kind == Object then v.nameBytes else 0;
      store.Write(t, at + core.len, NUL);
      if v.kind == Object {
        var cell := store.cells[t][v.length];
        store.SetCell(t, v.length, cell.(at := v.nameBytes, size := core.len));
      }
      assert store.view == old(store.view)[t := a];
    }

    method CloseText() returns (fl: Flow)
      requires Ready() && core.mode.InString? && !EndString(Cfg(), View()).Fault? && (!first ==> KeyNext(View()))
      requires TopIs(View(), String)
      modifies this`core, this`recs, this`nodes, this`buf, this`next, store`view, store.repr
      ensures Meets(EndString(Cfg(), old(View())), fl)
      ensures |recs| == |old(recs)|
    {
      hide Finish, InMemory, AfterString, Store.Valid, Chain, EndString, Room, KeyNext, ClosedValue, SameRecs, RecOf;
      ClosesString(Cfg(), View());
      RecHere(recs, nodes, core.top);
      ClosedRecs(first, View(), recs);
      var t := core.top;
      var v := recs[t];
      ghost var w := ClosedValue(first, View(), nodes[t]);
      if first { NoString(store.view, plan, nodes[t := w]); } else { WriteEnd(); }
      recs := recs[t := v.(length := core.len)];
      core := core.(mode := Normal);
      next := true;
      nodes := nodes[t := w];
      buf := "";
      StringDone(first, store.view, plan, View());
      return Fall;
    }

    method CloseName() returns (fl: Flow)
      requires Ready() && core.mode.InString? && !EndString(Cfg(), View()).Fault? && (!first ==> KeyNext(View()))
      requires TopIs(View(), Object)
      modifies this`core, this`recs, this`nodes, this`buf, store`view, store.repr
      ensures Meets(EndString(Cfg(), old(View())), fl)
      ensures |recs| == |old(recs)|
    {
      hide Finish, InMemory, AfterString, Store.Valid, Chain, EndString, Room, KeyNext, ClosedValue, SameRecs, RecOf;
      ClosesString(Cfg(), View());
      RecHere(recs, nodes, core.top);
      ClosedRecs(first, View(), recs);
      var t := core.top;
      var v := recs[t];
      ghost var w := ClosedValue(first, View(), nodes[t]);
      if first { NoString(store.view, plan, nodes[t := w]); } else { WriteEnd(); }
      recs := recs[t := v.(nameBytes := v.nameBytes + core.len + 1)];
      core := core.(mode := Normal, seek := true, needColon := true);
      nodes := nodes[t := w];
      buf := "";
      StringDone(first, store.view, plan, View());
      return Fall;
    }

    method CloseString() returns (fl: Flow)
      requires Ready() && core.mode.InString? && !EndString(Cfg(), View()).Fault? && (!first ==> KeyNext(View()))
      modifies this`core, this`recs, this`nodes, this`buf, this`next, store`view, store.repr
      ensures Meets(EndString(Cfg(), old(View())), fl)
      ensures |recs| == |old(recs)|
    {
      hide Finish, InMemory, Store.Valid, Chain, EndString, KeyNext, SameRecs;
      ClosesString(Cfg(), View());
      RecHere(recs, nodes, core.top);
      if recs[core.top].kind == String { fl := CloseText(); } else { fl := CloseName(); }
    }

    method ReadString(b: char) returns (fl: Flow)
      requires Ready() && core.mode.InString? && b == At(text, core.ptr) && !StringTurn(Cfg(), View(), b).Fault?
      requires !first ==> KeyNext(View())
      modifies this`core, this`recs, this`nodes, this`buf, this`next, store`view, store.repr
      ensures Meets(StringTurn(Cfg(), old(View()), b), fl)
      ensures |recs| == |old(recs)|
    {
      hide JsonSpec.Escape, EndString, Add, Finish, InMemory, SameRecs, KeyNext, Store.Valid, Chain;
      if b == NUL || core.len > UINT_MAX - 8 {
        return Error;
      } else if core.mode.escaped {
        fl := Escape(b);
      } else if b == '\\' {
        core := core.(mode := InString(true));
        QuietString(first, store.view, plan, old(View()), View());
        return Fall;
      } else if b == '"' {
        fl := CloseString();
      } else {
        fl := StringAdd([b], 1);
      }
    }

    // ----- comments -----

    method ReadComment(b: char) returns (fl: Flow)
      requires Ready() && !core.mode.InString? && (core.mode != Normal || b == '/') && b == At(text, core.ptr)
      requires -1 <= core.top < |recs|
      modifies this`core, this`stay
      ensures Meets(CommentTurn(Cfg(), old(View()), b), fl)
    {
      hide Finish, InMemory, Store.Valid, Chain;
      fl := Fall;
      if core.mode == LineComment {
        if b == '\r' || b == '\n' || b == NUL {
          core := core.(mode := Normal);
          stay := true;
        }
      } else if core.mode == BlockComment {
        if b == NUL { return Error; }
        if b == '*' && core.ptr + 1 < |text| && text[core.ptr + 1] == '/' {
          core := core.(mode := Normal, ptr := core.ptr + 1);
        }
      } else {
        fl := OpenComment();
        return;
      }
      QuietMemory(first, store.view, plan, old(View()), View());
    }

    method OpenComment() returns (fl: Flow)
      requires Ready() && core.mode == Normal && -1 <= core.top < |recs|
      modifies this`core
      ensures Meets(CommentTurn(Cfg(), old(View()), '/'), fl)
    {
      hide Finish, InMemory, Store.Valid, Chain;
      if !core.seek && !core.done && !(core.top >= 0 && recs[core.top].kind == Object) { return Error; }
      if core.ptr + 1 >= |text| { return Error; }
      var b := text[core.ptr + 1];
      if b != '/' && b != '*' { return Error; }
      core := core.(ptr := core.ptr + 1, mode := if b == '/' then LineComment else BlockComment);
      QuietMemory(first, store.view, plan, old(View()), View());
      return Fall;
    }

    // ----- seeking a value -----

    method SkipNumber()
      requires core.ptr <= |text|
      modifies this`core
      ensures core == old(core).(ptr := SkipEnd(text, old(core.ptr)))
    {
      while core.ptr < |text| && NumberChar(text[core.ptr])
        invariant core.ptr <= |text| && core == old(core).(ptr := core.ptr)
        invariant SkipEnd(text, core.ptr) == SkipEnd(text, old(core.ptr))
        decreases |text| - core.ptr
      {
        core := core.(ptr := core.ptr + 1);
      }
    }

    /** A literal of n characters. */
    method Literal(kind: Kind, value: int, n: nat) returns (fl: Flow)
      requires Ready() && n > 0 && core.mode == Normal && kind != String && Fits(kind)
      requires !JsonSpec.Literal(Cfg(), View(), kind, value, core.ptr + n).Fault?
      modifies this`core, this`recs, this`nodes, this`links, this`next, store
      ensures fresh(store.repr - old(store.repr)) && old(store.repr) <= store.repr
      ensures Meets(JsonSpec.Literal(Cfg(), old(View()), kind, value, old(core.ptr) + n), fl)
      ensures Linked() && |recs| == |old(recs)| + 1
    {
      hide Finish, InMemory, SameRecs, Store.Valid, Chain, New, NewNode, Allocated;
      NewIs(Cfg(), View(), kind, value);
      var k := NewValue(kind, value);
      core := core.(top := k, seek := false, ptr := core.ptr + n - 1);
      next := true;
      FinishAnywhere(Cfg(), View(), old(core.ptr), core.ptr + 1);
      NewMemory(Cfg(), old(store.view), old(View()), store.view, View(), kind, value);
      return Fall;
    }

    /** The next value of the first pass is a string exactly if this one is. */
    ghost predicate Fits(kind: Kind)
      reads this`first, this`nodes, this`plan
    {
      !first && |nodes| < |plan| ==> (plan[|nodes|].kind == String <==> kind == String)
    }

    /** The first pass begins a number, behind its sign ... */
    method BeginNumber(b: char) returns (fl: Flow)
      requires Ready() && (Digit(b) || b == '-') && core.mode == Normal && first
      modifies this`core, this`recs, this`nodes, this`links, this`num, this`stay, store
      ensures fresh(store.repr - old(store.repr)) && old(store.repr) <= store.repr
      ensures Meets(ValueTurn(Cfg(), old(View()), b), fl)
      ensures Linked() && |recs| == |old(recs)| + 1
    {
      hide Finish, SkipEnd, Word, InMemory, SameRecs, Store.Valid, Chain, New, Allocated;
      ghost var at := if b == '-' then core.ptr + 1 else core.ptr;
      NewIs(Cfg(), View().(core := core.(ptr := at), num := FRESH.(negative := b == '-')), Integer, 0);
      var n := NewValue(Integer, 0);
      num := FRESH.(negative := b == '-');
      core := core.(top := n, seek := false, ptr := if b == '-' then core.ptr + 1 else core.ptr);
      stay := true;
      NoMemory(store.view, plan, View());
      return Fall;
    }

    /** ... and the second one skips it. */
    method PassNumber(b: char) returns (fl: Flow)
      requires Ready() && (Digit(b) || b == '-') && core.mode == Normal && !first && Fits(Integer)
      requires !ValueTurn(Cfg(), View(), b).Fault?
      modifies this`core, this`recs, this`nodes, this`links, this`next, this`stay, store
      ensures fresh(store.repr - old(store.repr)) && old(store.repr) <= store.repr
      ensures Meets(ValueTurn(Cfg(), old(View()), b), fl)
      ensures Linked() && |recs| == |old(recs)| + 1
    {
      hide Finish, SkipEnd, Word, InMemory, SameRecs, Store.Valid, Chain, New, NewNode, Allocated;
      NewIs(Cfg(), View(), Integer, 0);
      var n := NewValue(Integer, 0);
      SkipNumber();
      core := core.(top := n, seek := false);
      next, stay := true, true;
      FinishAnywhere(Cfg(), View(), old(core.ptr), core.ptr);
      NewMemory(Cfg(), old(store.view), old(View()), store.view, View(), Integer, 0);
      return Fall;
    }

    /** An opening bracket or quote. */
    method Open(b: char) returns (fl: Flow)
      requires Ready() && core.mode == Normal && (b == '{' || b == '[' || b == '"')
      requires !ValueTurn(Cfg(), View(), b).Fault? && (!first ==> Foreseen(Cfg(), View(), b))
      modifies this`core, this`recs, this`nodes, this`links, this`buf, this`stay, store
      ensures fresh(store.repr - old(store.repr)) && old(store.repr) <= store.repr
      ensures Meets(ValueTurn(Cfg(), old(View()), b), fl)
      ensures Linked() && |recs| == |old(recs)| + 1
    {
      hide Finish, InMemory, SameRecs, Store.Valid, Chain, ValueTurn, NewNode, Allocated, Foreseen;
      OpensValue(Cfg(), View(), b);
      var n := NewValue(OpenKind(b), 0);
      core := core.(ptr := core.ptr + 1, top := n, seek := b == '[',
                    mode := if b == '"' then InString(false) else Normal, len := if b == '"' then 0 else core.len);
      if b == '"' { buf := ""; }
      stay := true;
      OpenMemory(Cfg(), old(store.view), old(View()), store.view, View(), b);
      return Fall;
    }

    method ReadValue(b: char) returns (fl: Flow)
      requires Ready() && b == At(text, core.ptr) && core.mode == Normal
      requires !ValueTurn(Cfg(), View(), b).Fault? && (!first ==> Foreseen(Cfg(), View(), b))
      modifies this`core, this`recs, this`nodes, this`links, this`num, this`buf, this`next, this`stay, store
      ensures fresh(store.repr - old(store.repr)) && old(store.repr) <= store.repr
      ensures Meets(ValueTurn(Cfg(), old(View()), b), fl)
      ensures Linked() && |recs| == |old(recs)| + if ValueAt(text, old(core.ptr)) then 1 else 0
    {
      hide Finish, SkipEnd, JsonSpec.Literal, InMemory, SameRecs, Store.Valid, Chain, New;
      if b == '{' || b == '[' || b == '"' {
        fl := Open(b);
      } else if b == 't' {
        if !Word(text, core.ptr, "true") { return Error; }
        fl := Literal(Boolean, 1, 4);
      } else if b == 'f' {
        if !Word(text, core.ptr, "false") { return Error; }
        fl := Literal(Boolean, 0, 5);
      } else if b == 'n' {
        if !Word(text, core.ptr, "null") { return Error; }
        fl := Literal(Null, 0, 4);
      } else if Digit(b) || b == '-' {
        if first { fl := BeginNumber(b); } else { fl := PassNumber(b); }
      } else {
        return Error;
      }
    }

    method Seek(b: char) returns (fl: Flow)
      requires Ready() && b == At(text, core.ptr) && core.seek && core.mode == Normal && !core.done
      requires -1 <= core.top < |recs|
      requires !SeekTurn(Cfg(), View(), b).Fault?
      requires !first && !core.needComma && !core.needColon ==> Foreseen(Cfg(), View(), b)
      modifies this`core, this`recs, this`nodes, this`links, this`num, this`buf, this`next, this`stay, store
      ensures fresh(store.repr - old(store.repr)) && old(store.repr) <= store.repr
      ensures Meets(SeekTurn(Cfg(), old(View()), b), fl)
      ensures Linked() && |recs| == |old(recs)| + if Makes(Cfg(), old(View())) then 1 else 0
    {
      hide ValueTurn, Finish, InMemory, Store.Valid, Chain, Foreseen;
      fl := Fall;
      if White(b) { return; }
      if b == ']' {
        if !(core.top >= 0 && recs[core.top].kind == Array) { return Error; }
        FinishAnywhere(Cfg(), View().(core := core.(needComma := false, seek := false)), core.ptr, core.ptr + 1);
        core := core.(needComma := false, seek := false);
        next := true;
      } else if core.needComma {
        if b != ',' { return Error; }
        core := core.(needComma := false);
      } else if core.needColon {
        if b != ':' { return Error; }
        core := core.(needColon := false);
      } else {
        fl := ReadValue(b);
        return;
      }
      QuietMemory(first, store.view, plan, old(View()), View());
    }

    // ----- inside objects and numbers -----

    method InObject(b: char) returns (fl: Flow)
      requires Ready() && b == At(text, core.ptr) && core.mode == Normal && TopIs(View(), Object)
      modifies this`core, this`buf, this`next
      ensures Meets(ObjectTurn(Cfg(), old(View()), b), fl)
    {
      hide Finish, InMemory, Store.Valid, Chain, SameRecs;
      fl := Fall;
      if White(b) { return; }
      if b == '"' {
        if core.needComma { return Error; }
        core := core.(mode := InString(false), len := 0);
        buf := "";
        NameBegins(first, store.view, plan, old(View()), View());
        return;
      }
      if b == '}' {
        core := core.(needComma := false);
        next := true;
      } else if b == ',' && core.needComma {
        core := core.(needComma := false);
      } else {
        return Error;
      }
      QuietMemory(first, store.view, plan, old(View()), View());
    }

    /** The flow stands for what the character does to the number. */
    ghost predicate Scans(r: Scan, fl: Flow)
      reads this
    {
      match r
      case Read(s) => fl == Fall && !next && s == if stay then View() else At1(View())
      case Bad => fl == Error
      case End(s) => fl == Fall && next && stay && s == View()
    }

    method ReadDigit(b: char) returns (fl: Flow)
      requires !next && !stay && SameRecs(recs, nodes) && 0 <= core.top < |recs| && Digit(b)
      modifies this`recs, this`nodes, this`num, this`stay
      ensures Scans(DigitScan(old(View()), b), fl) && SameRecs(recs, nodes) && |recs| == |old(recs)|
    {
      hide WouldOverflow, DigitValue;
      var v, d, n := recs[core.top], DigitValue(b), num;
      fl := Fall;
      if n.e {
        num := n.(digits := n.digits + 1, eSign := true);
      } else if v.kind != Integer {
        num := n.(digits := n.digits + 1);
      } else if n.zero {
        fl := Error;
      } else {
        var zero := n.digits == 0 && b == '0';
        if WouldOverflow(v.integer, d) {
          num := n.(zero := zero);
          v := v.(kind := Double);
          stay := true;
        } else {
          num := n.(digits := n.digits + 1, zero := zero);
          v := v.(integer := v.integer * 10 + d);
        }
        recs := recs[core.top := v];
        nodes := nodes[core.top := nodes[core.top].(kind := v.kind, integer := v.integer)];
        assert View() == SetTop(old(View()), nodes[core.top]).(num := num);
      }
    }

    method ReadMark(b: char) returns (fl: Flow)
      requires !next && !stay && SameRecs(recs, nodes) && 0 <= core.top < |recs| && !Digit(b)
      modifies this`recs, this`nodes, this`num, this`next, this`stay
      ensures Scans(NumberScan(old(View()), b), fl) && SameRecs(recs, nodes) && |recs| == |old(recs)|
    {
      hide DigitScan;
      var v, n := recs[core.top], num;
      fl := Fall;
      if (b == '+' || b == '-') && n.e && !n.eSign {
        num := n.(eSign := true);
        return;
      } else if b == '.' && v.kind == Integer {
        if n.digits == 0 { return Error; }
        v := v.(kind := Double);
        num := n.(digits := 0);
      } else if !n.e && v.kind == Double && n.digits == 0 {
        return Error;
      } else if !n.e && (b == 'e' || b == 'E') {
        v := v.(kind := Double);
        num := n.(e := true, digits := 0, zero := false);
      } else if n.e && n.digits == 0 {
        return Error;
      } else {
        if n.negative && v.kind == Integer { v := v.(integer := -v.integer); }
        next, stay := true, true;
      }
      recs := recs[core.top := v];
      nodes := nodes[core.top := nodes[core.top].(kind := v.kind, integer := v.integer)];
    }

    method InNumber(b: char) returns (fl: Flow)
      requires Ready() && first && 0 <= core.top < |nodes| && b == At(text, core.ptr) && !core.mode.InString?
      modifies this`recs, this`nodes, this`num, this`next, this`stay
      ensures Meets(NumberTurn(Cfg(), old(View()), b), fl)
      ensures |recs| == |old(recs)|
    {
      hide Finish, DigitScan, Store.Valid, Chain;
      if Digit(b) {
        fl := ReadDigit(b);
        assert NumberScan(old(View()), b) == DigitScan(old(View()), b);
      } else {
        fl := ReadMark(b);
      }
      hide NumberScan, SameRecs;
    }

    // ----- the end of a turn, and whole passes -----

    /** A complete value goes to its parent, in the second pass to the next slot. */
    method HandOver() returns (fl: Flow)
      requires Sound() && InMemory(first, store.view, plan, View()) && !core.mode.InString?
      requires !Finish(Cfg(), View(), core.ptr).Fault?
      modifies this`core, this`recs, this`nodes, store`view, store.repr
      ensures var o := Finish(Cfg(), old(View()), old(core.ptr));
              && fl != Stop && (fl == Error ==> o == Fail)
              && (fl == Fall ==> o == Next(View()) && Sound() && InMemory(first, store.view, plan, View()))
      ensures |recs| == |old(recs)|
    {
      hide MemOk, Parents, Store.Valid, Chain;
      fl := Fall;
      var t := core.top;
      var p := recs[t].parent;
      if p < 0 {
        core := core.(needComma := true, done := true);
        return;
      }
      var parent := recs[p];
      if !first {
        SlotMemory(store.view, plan, View(), t);
        PutSlot(p, parent.length, t);
      }
      ghost var v := Grown(first, nodes[p], t);
      parent := parent.(length := parent.length + 1);
      if parent.length > UINT_MAX - 8 { return Error; }
      core := core.(needComma := true, seek := core.seek || parent.kind == Array, top := p);
      recs := recs[p := parent];
      nodes := nodes[p := v];
    }

    /** The value of a slot, beside the name it may have. */
    method PutSlot(p: nat, j: nat, t: nat)
      requires store.Valid() && p < |store.view| && j < |store.view[p].cells|
      modifies store`view, store.repr
      ensures store.Valid() && store.repr == old(store.repr)
      ensures var a := old(store.view)[p];
              store.view == old(store.view)[p := a.(cells := a.cells[j := a.cells[j].(value := t)])]
    {
      var cell := store.cells[p][j];
      store.SetCell(p, j, cell.(value := t));
    }

    /** What is left of the loop body. */
    method Tail() returns (fl: Flow)
      requires Sound() && InMemory(first, store.view, plan, View()) && (next ==> !core.mode.InString?)
      requires var p := if stay then core.ptr else core.ptr + 1; next ==> !Finish(Cfg(), View(), p).Fault?
      modifies this`core, this`recs, this`nodes, this`next, this`stay, store`view, store.repr
      ensures var p := if old(stay) then old(core.ptr) else old(core.ptr) + 1;
              var o := if old(next) then Finish(Cfg(), old(View()), p) else Go(old(View()), p);
              && fl != Stop && (fl == Error ==> o == Fail)
              && (fl == Fall ==> o == Next(View()) && Sound() && InMemory(first, store.view, plan, View()))
      ensures !next && !stay
      ensures |recs| == |old(recs)|
    {
      hide Finish, InMemory, SameRecs, Store.Valid, Chain;
      if !stay { core := core.(ptr := core.ptr + 1); }
      FinishAnywhere(Cfg(), old(View()), core.ptr, core.ptr);
      MovedMemory(first, store.view, plan, old(View()), core.ptr);
      fl := Fall;
      if next { fl := HandOver(); }
      next, stay := false, false;
    }

    /** The body of the loop up to its tail. */
    method Head() returns (fl: Flow)
      requires Ready() && !Step(Cfg(), View()).Fault? && Sure(Cfg(), View())
      modifies this`core, this`recs, this`nodes, this`links, this`num, this`buf, this`next, this`stay, store, store.repr
      ensures fresh(store.repr - old(store.repr)) && old(store.repr) <= store.repr
      ensures Meets(Step(Cfg(), old(View())), fl)
      ensures Linked() && |recs| == |old(recs)| + if Makes(Cfg(), old(View())) then 1 else 0
    {
      hide StringTurn, CommentTurn, SeekTurn, ObjectTurn, NumberTurn, Finish, InMemory, Foreseen, KeyNext, Store.Valid,
           Chain;
      var b := At(text, core.ptr);
      if core.mode.InString? {
        fl := ReadString(b);
      } else if comments && (core.mode != Normal || b == '/') {
        fl := ReadComment(b);
      } else if core.done {
        fl := if b == NUL then Stop else if White(b) then Fall else Error;
      } else if core.seek {
        fl := Seek(b);
      } else if recs[core.top].kind == Object {
        fl := InObject(b);
      } else if Number(recs[core.top].kind) {
        fl := InNumber(b);
      } else {
        fl := Fall;
      }
    }

    /** One turn of the loop. */
    method Turn() returns (fl: Flow)
      requires Ready() && !Step(Cfg(), View()).Fault? && Sure(Cfg(), View())
      modifies this`core, this`recs, this`nodes, this`links, this`num, this`buf, this`next, this`stay, store, store.repr
      ensures fresh(store.repr - old(store.repr)) && old(store.repr) <= store.repr
      ensures match fl
              case Fall => Ready() && Step(Cfg(), old(View())) == Next(View())
              case Stop =>
                && Sound() && InMemory(first, store.view, plan, View())
                && Step(Cfg(), old(View())) == Done(View())
              case Error => Step(Cfg(), old(View())) == Fail
      ensures Linked() && |recs| == |old(recs)| + if Makes(Cfg(), old(View())) then 1 else 0
    {
      hide Step, Finish, InMemory, SameRecs, Store.Valid, Chain;
      StepForward(Cfg(), View());
      fl := Head();
      if fl == Fall { fl := Tail(); }
    }

    /** The state in which the first pass begins. */
    method Begin()
      modifies this, store
      ensures Ready() && first && plan == [] && View() == START && recs == [] && store.repr == {}
    {
      hide Chain, Store.Valid, InMemory;
      ChainStarts();
      store.Clear();
      first, core, recs, counted, num, next, stay := true, START.core, [], [], FRESH, false, false;
      links := NO_LINKS;
      nodes, plan, buf := [], [], "";
      NoMemory(store.view, plan, View());
    }

    /** The state in which the second one begins: what was counted is the plan. */
    method BeginAgain()
      requires Sound() && first && Parents(nodes)
      modifies this, store
      ensures Ready() && !first && plan == old(nodes) && View() == START && store.repr == {}
    {
      hide Chain, Store.Valid, InMemory, Parents;
      EmptyMemory(nodes);
      ChainAgain(|recs|, |counted|, links);
      store.Clear();
      first, core, recs, counted, num, next, stay := false, START.core, [], recs, FRESH, false, false;
      links := links.(alloc := links.root, root := -1);
      plan, nodes, buf := nodes, [], "";
    }

    /** The first pass counts. */
    method FirstPass() returns (fl: Flow)
      requires Sound()
      modifies this, store, store.repr
      ensures fresh(store.repr - old(store.repr)) && fl != Fall
      ensures Run(First(text, comments), START) == if fl == Stop then Done(View()) else Fail
      ensures fl == Stop ==> Sound()
      ensures first && Linked() && |recs| == Made(First(text, comments), START)
    {
      hide Step, Run, Good, Sure, InMemory, Store.Valid, Chain, CommentsOn, SameRecs, Made, Makes;
      Begin();
      ghost var c := First(text, comments);
      FirstPassIsSafe(text, comments);
      StartIsGood(c);
      while true
        invariant Ready() && Cfg() == c && Run(c, View()) == Run(c, START) && Good(View()) && CommentsOn(c, View())
        invariant |recs| + Made(c, View()) == Made(c, START)
        invariant fresh(store.repr - old(store.repr))
        decreases |text| - core.ptr, Rank(core), TopOf(View()), IntegerBit(View())
      {
        RunOfTurn(c, View());
        MadeOfTurn(c, View());
        StepGood(c, View());
        SureFirst(c, View());
        fl := Turn();
        if fl != Fall { return; }
      }
    }

    /** The error exit of the first pass gives back every value on the chain. */
    method Discard() returns (freed: seq<nat>)
      requires first && Linked()
      modifies this`links
      ensures |freed| == |recs| && forall k | 0 <= k < |freed| :: freed[k] == k
    {
      freed := [];
      links := links.(alloc := links.root);
      while links.alloc >= 0
        invariant links == old(links).(alloc := links.alloc) && |freed| <= |recs|
        invariant forall k | 0 <= k < |freed| :: freed[k] == k
        invariant links.alloc == if |freed| < |recs| then |freed| else -1
        decreases |recs| - |freed|
      {
        var next := links.chain[links.alloc];
        freed := freed + [links.alloc];
        links := links.(alloc := next);
      }
    }

    /** The second pass fills what the first one counted: it does not fail, and
        every value ends up in memory as the machine has it. */
    method SecondPass()
      requires Sound() && first && Run(First(text, comments), START) == Done(View())
      modifies this, store, store.repr
      ensures fresh(store.repr - old(store.repr)) && Sound()
      ensures plan == old(nodes) && Run(Second(text, comments, plan), START) == Done(View())
      ensures MemOk(store.view, plan, nodes, -1)
    {
      hide Step, Run, Sure, InMemory, Store.Valid, Chain, SameRecs, Along, MemOk;
      ghost var c, d := First(text, comments), Second(text, comments, nodes);
      AlongStarts(text, comments);
      BeginAgain();
      ghost var s := START;
      while true
        invariant Ready() && Cfg() == d && Run(d, View()) == Run(d, START) && Along(c, d, s, View())
        invariant fresh(store.repr - old(store.repr))
        decreases |text| - core.ptr, Rank(core), TopOf(View()), IntegerBit(View())
      {
        ghost var r := View();
        RunOfTurn(d, r);
        SureSecond(c, d, s, r);
        NeverFails(c, d, s, r);
        var fl := Turn();
        if fl == Stop {
          DoneMemory(d, store.view, r);
          return;
        }
        s := AlongNext(c, d, s, r);
      }
    }

    /** Reads the values back from their records and their memory. */
    method Collect() returns (r: seq<Node>)
      requires Sound() && MemOk(store.view, plan, nodes, -1)
      requires forall k | 0 <= k < |nodes| && nodes[k].kind == Object :: |nodes[k].keys| == nodes[k].length
      ensures r == nodes
    {
      hide MemOk, AreaOk;
      r := [];
      for k := 0 to |recs|
        invariant r == nodes[..k]
      {
        AreaHere(store.view, plan, nodes, -1, k);
        var v := Read(k);
        r := r + [v];
      }
    }

    method Read(k: nat) returns (v: Node)
      requires Sound() && k < |recs| && k < |store.view| && k < |plan|
      requires AreaOk(store.view[k], plan[k], nodes[k], false)
      requires nodes[k].kind == Object ==> |nodes[k].keys| == nodes[k].length
      ensures v == nodes[k]
    {
      var r := recs[k];
      var cells, bytes := store.cells[k], store.bytes[k];
      var slots: seq<nat>, keys: seq<string>, content := [], [], "";
      if Container(r.kind) {
        for j := 0 to r.length
          invariant slots == nodes[k].slots[..j]
          invariant keys == if r.kind == Object then nodes[k].keys[..j] else []
        {
          assert SlotOk(store.view[k], nodes[k], j);
          slots := slots + [cells[j].value];
          if r.kind == Object {
            assert KeyOk(store.view[k], nodes[k], j);
            keys := keys + [bytes[cells[j].at..cells[j].at + cells[j].size]];
          }
        }
      }
      if r.kind == String { content := bytes[..r.length]; }
      v := Node(r.kind, r.parent, r.length, r.nameBytes, |keys|, r.integer, slots, keys, content);
    }
  }

  function OpenKind(b: char): Kind { if b == '{' then Object else if b == '[' then Array else String }

  predicate HasNext(c: Config, s: State) { c.first || |s.nodes| < |c.plan| }

  function NewNode(c: Config, s: State, kind: Kind, value: int): Node
    requires HasNext(c, s)
  {
    if c.first then Node(kind, s.core.top, 0, 0, 0, value, [], [], "") else Emptied(c.plan[|s.nodes|])
  }

  lemma NewRec(c: Config, s: State, kind: Kind, value: int)
    requires HasNext(c, s)
    ensures RecOf(NewNode(c, s, kind, value)) ==
            if c.first then Rec(kind, s.core.top, 0, 0, value)
            else RecOf(c.plan[|s.nodes|]).(length := 0, nameBytes := 0)
  {
  }

  lemma NewIs(c: Config, s: State, kind: Kind, value: int)
    ensures New(c, s, kind, value) ==
            if !HasNext(c, s) then Fault
            else Next(s.(core := s.core.(top := |s.nodes|, seek := false),
                         nodes := s.nodes + [NewNode(c, s, kind, value)]))
  {
  }

  lemma OpensValue(c: Config, s: State, b: char)
    requires s.core.ptr <= |c.text| && (b == '{' || b == '[' || b == '"') && s.core.mode == Normal
    ensures ValueTurn(c, s, b) == if HasNext(c, s) then Next(Opened(c, s, b)) else Fault
  {
  }

  function Opened(c: Config, s: State, b: char): State
    requires HasNext(c, s)
  {
    var core := s.core.(ptr := s.core.ptr + 1, top := |s.nodes|, seek := b == '[',
                        mode := if b == '"' then InString(false) else Normal,
                        len := if b == '"' then 0 else s.core.len);
    s.(core := core, nodes := s.nodes + [NewNode(c, s, OpenKind(b), 0)], buf := if b == '"' then "" else s.buf)
  }

  /** A block for value v was added to the memory. */
  predicate Allocated(mem: seq<Area>, mem': seq<Area>, v: Node) {
    && |mem'| == |mem| + 1 && mem'[..|mem|] == mem
    && |mem'[|mem|].cells| == CellCount(v) && |mem'[|mem|].bytes| == ByteCount(v)
  }

  lemma NewMemory(c: Config, mem: seq<Area>, s: State, mem': seq<Area>, s': State, kind: Kind, value: int)
    requires InMemory(c.first, mem, c.plan, s) && HasNext(c, s) && s.core.mode == Normal && s'.core.mode == Normal
    requires s'.nodes == s.nodes + [NewNode(c, s, kind, value)] && s'.core.top == |s.nodes|
    requires !c.first ==> Allocated(mem, mem', c.plan[|s.nodes|]) && c.plan[|s.nodes|].kind != String
    ensures InMemory(c.first, mem', c.plan, s')
  {
    hide Parents, Holds;
    if !c.first { BlockAdded(mem, c.plan, s, mem', s'); }
  }

  lemma OpenMemory(c: Config, mem: seq<Area>, s: State, mem': seq<Area>, s': State, b: char)
    requires InMemory(c.first, mem, c.plan, s) && HasNext(c, s) && s.core.mode == Normal
    requires (b == '{' || b == '[' || b == '"') && s' == Opened(c, s, b)
    requires !c.first ==> Allocated(mem, mem', c.plan[|s.nodes|]) && Foreseen(c, s, b)
    ensures InMemory(c.first, mem', c.plan, s')
  {
    hide Parents, Holds;
    if !c.first { BlockAdded(mem, c.plan, s, mem', s'); }
  }

  /** The memory when no string is being read. */
  ghost predicate AfterString(first: bool, mem: seq<Area>, plan: seq<Node>, nodes: seq<Node>) {
    first || (MemOk(mem, plan, nodes, -1) && Parents(plan))
  }

  lemma NoString(mem: seq<Area>, plan: seq<Node>, nodes: seq<Node>)
    ensures AfterString(true, mem, plan, nodes)
  {
  }

  lemma StringDone(first: bool, mem: seq<Area>, plan: seq<Node>, s: State)
    requires AfterString(first, mem, plan, s.nodes) && !s.core.mode.InString?
    ensures InMemory(first, mem, plan, s)
  {
  }

  lemma RecHere(recs: seq<Rec>, nodes: seq<Node>, t: nat)
    requires SameRecs(recs, nodes) && t < |nodes|
    ensures |recs| == |nodes| && recs[t].kind == nodes[t].kind
  {
  }

  lemma ClosedRecs(first: bool, s: State, recs: seq<Rec>)
    requires SameRecs(recs, s.nodes) && 0 <= s.core.top < |recs|
    requires s.nodes[s.core.top].kind == Object || s.nodes[s.core.top].kind == String
    ensures var t := s.core.top;
            var v := recs[t];
            var r := if v.kind == String then v.(length := s.core.len)
                     else v.(nameBytes := v.nameBytes + s.core.len + 1);
            SameRecs(recs[t := r], s.nodes[t := ClosedValue(first, s, s.nodes[t])])
  {
  }

  lemma ClosesString(c: Config, s: State)
    requires !EndString(c, s).Fault?
    ensures 0 <= s.core.top < |s.nodes|
    ensures var t := s.core.top;
            var s' := s.(core := s.core.(mode := Normal), nodes := s.nodes[t := ClosedValue(c.first, s, s.nodes[t])],
                         buf := "");
            && (s.nodes[t].kind == String || s.nodes[t].kind == Object)
            && (!c.first ==> Room(c.plan, s.nodes, t, s.core.len + 1))
            && (!c.first && s.nodes[t].kind == Object ==> s.nodes[t].length < c.plan[t].length)
            && EndString(c, s) ==
               if s.nodes[t].kind == String then Finish(c, s', s.core.ptr + 1)
               else Next(s'.(core := s'.core.(seek := true, needColon := true, ptr := s.core.ptr + 1)))
  {
    hide Finish;
  }

  /** Where the second pass stands, a first pass that accepts has been. */
  ghost predicate Along(c: Config, d: Config, s: State, r: State) {
    && Passes(c, d) && Good(s) && CommentsOn(c, s) && s.core.ptr <= |c.text| && r.core.ptr <= |d.text|
    && PlanOk(d.plan) && Run(c, s).Done? && d.plan == Run(c, s).final.nodes && Together(c, s, r, d.plan)
  }

  lemma AlongNext(c: Config, d: Config, s: State, r: State) returns (s': State)
    requires Along(c, d, s, r) && Step(d, r).Next?
    ensures Along(c, d, s', Step(d, r).s) && Run(c, s') == Run(c, s)
  {
    s' := NextTogether(c, d, s, r);
    StepForward(d, r);
  }

  lemma SureSecond(c: Config, d: Config, s: State, r: State)
    requires Along(c, d, s, r)
    ensures Sure(d, r)
  {
    hide Run, Step, Foreseen, Ext, PlanOk;
    RunBound(c, s);
    if NumRel(c, s, r, d.plan) {
      NumberForeseen(c, d, s, r);
      assert ParentAt(s.nodes, |s.nodes| - 1);
    } else {
      NamesInStep(c, d, s, r);
      if s.core.top >= 0 {
        assert RelAt(s.nodes, r.nodes, d.plan, s.core.top);
        SameKind(s, r, d.plan);
      }
      if s.core.mode == Normal && s.core.seek && !s.core.done && !s.core.needComma && !s.core.needColon {
        ValueForeseen(c, d, s, r);
      }
    }
  }

  /** A second pass does not reject. */
  lemma NeverFails(c: Config, d: Config, s: State, r: State)
    requires Along(c, d, s, r)
    ensures Step(d, r).Next? || Step(d, r).Done?
  {
    hide Step, Good, CommentsOn, PlanOk, Together;
    Simulate(c, d, s, r);
    RunOfTurn(d, r);
  }

  lemma DoneMemory(d: Config, mem: seq<Area>, r: State)
    requires !d.first && r.core.ptr <= |d.text| && Step(d, r).Done? && InMemory(false, mem, d.plan, Step(d, r).final)
    ensures MemOk(mem, d.plan, Step(d, r).final.nodes, -1)
  {
    StepDone(d, r);
    hide MemOk, Step;
  }

  lemma SameKind(s: State, r: State, plan: seq<Node>)
    requires Ext(s.nodes, plan) && 0 <= s.core.top < |s.nodes| && RelAt(s.nodes, r.nodes, plan, s.core.top)
    requires s.core.top < |r.nodes| <= |plan|
    ensures s.nodes[s.core.top].kind == Object ==> r.nodes[s.core.top].kind == Object
  {
    assert ExtAt(s.nodes, plan, s.core.top);
  }

  lemma NumberForeseen(c: Config, d: Config, s: State, r: State)
    requires NumRel(c, s, r, d.plan) && Passes(c, d) && Ext(s.nodes, d.plan)
    ensures Foreseen(d, r, At(d.text, r.core.ptr))
  {
    assert ExtAt(s.nodes, d.plan, |r.nodes|);
  }

  lemma NamesInStep(c: Config, d: Config, s: State, r: State)
    requires Rel(s, r, d.plan) && Good(s) && Ext(s.nodes, d.plan)
    ensures KeyNext(r)
  {
    if s.core.mode.InString? && TopIs(r, Object) {
      var t := s.core.top;
      assert RelAt(s.nodes, r.nodes, d.plan, t) && ExtAt(s.nodes, d.plan, t) && NamesAt(s, t);
      if Above(s.nodes, t, t) { AboveIsBelow(s.nodes, t, t); }
    }
  }

  lemma ValueForeseen(c: Config, d: Config, s: State, r: State)
    requires Along(c, d, s, r) && Rel(s, r, d.plan) && s.core.mode == Normal && s.core.seek && !s.core.done
    requires !s.core.needComma && !s.core.needColon
    ensures Foreseen(d, r, At(d.text, r.core.ptr))
  {
    var b := At(c.text, s.core.ptr);
    if StartsValue(b) {
      hide Good, CommentsOn, Together, PlanOk, Ext, Rel;
      assert Rel(s, r, d.plan) ==> r.core == s.core && |r.nodes| == |s.nodes| by { RelLengths(s, r, d.plan); }
      RunOfTurn(c, s);
      ValueKind(c, s, b);
      assert Step(c, s) == ValueTurn(c, s, b);
      StepGood(c, s);
      RunBound(c, Step(c, s).s);
      KindAt(Step(c, s).s.nodes, d.plan, |s.nodes|);
    }
  }

  lemma RelLengths(s: State, r: State, plan: seq<Node>)
    requires Rel(s, r, plan)
    ensures r.core == s.core && |r.nodes| == |s.nodes|
  {
  }

  lemma KindAt(a: seq<Node>, plan: seq<Node>, n: nat)
    requires Ext(a, plan) && n < |a|
    ensures n < |plan| && (plan[n].kind == String <==> a[n].kind == String)
  {
    assert ExtAt(a, plan, n);
  }

  lemma ValueKind(c: Config, s: State, b: char)
    requires c.first && s.core.ptr <= |c.text| && StartsValue(b)
    ensures var o := ValueTurn(c, s, b);
            o.Next? ==> |o.s.nodes| > |s.nodes| && (o.s.nodes[|s.nodes|].kind == String <==> b == '"')
  {
    hide SkipEnd, Word;
  }

  lemma AlongStarts(text: string, comments: bool)
    requires Run(First(text, comments), START).Done?
    ensures var plan := Run(First(text, comments), START).final.nodes;
            && Along(First(text, comments), Second(text, comments, plan), START, START)
            && Parents(plan) && !Run(Second(text, comments, plan), START).Fault?
  {
    hide Step;
    FirstPassIsSafe(text, comments);
    DoneIsPlan(Run(First(text, comments), START).final);
    PassesAgree(text, comments);
    hide Run;
    StartIsGood(First(text, comments));
    assert Rel(START, START, Run(First(text, comments), START).final.nodes);
  }

  lemma MovedMemory(first: bool, mem: seq<Area>, plan: seq<Node>, s: State, q: nat)
    requires InMemory(first, mem, plan, s)
    ensures InMemory(first, mem, plan, s.(core := s.core.(ptr := q)))
  {
  }

  lemma EmptyMemory(plan: seq<Node>)
    requires Parents(plan)
    ensures InMemory(false, [], plan, START)
  {
  }

  lemma NoMemory(mem: seq<Area>, plan: seq<Node>, s: State)
    ensures InMemory(true, mem, plan, s)
  {
  }

  lemma SureFirst(c: Config, s: State)
    requires c.first && Good(s) && CommentsOn(c, s)
    ensures Sure(c, s)
  {
  }

  lemma StartIsGood(c: Config)
    ensures Good(START) && CommentsOn(c, START)
  {
  }

  lemma FinishAnywhere(c: Config, s: State, q: nat, p: nat)
    ensures Finish(c, s.(core := s.core.(ptr := q)), p) == Finish(c, s, p)
  {
  }

  lemma AddAnywhere(c: Config, s: State, q: nat, bytes: string, count: nat, p: nat)
    ensures Add(c, s.(core := s.core.(ptr := q)), bytes, count, p) == Add(c, s, bytes, count, p)
  {
  }
}
