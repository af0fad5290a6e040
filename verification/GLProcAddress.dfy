/**
 The guest side of libGL: the map from function names to invokers of host pointers, and
 `glXGetProcAddress`, which links the host pointers it hands out to them.
 */
module GLProcAddress {
  import opened CTypes
  import opened Declarators
  import opened Bytes
  import opened DigestText
  import opened Generator
  import opened GeneratorInvariant
  import opened Emission
  import opened ThunkRuntime
  import opened EmittedNames
  import opened IndirectCalls
  import opened PackedArguments

  /** An invoker is one per function type. */
  type Invokers = map<string, CType>
  type Links = map<nat, CType>

  function InvokersOf(symbols: seq<Api>): Invokers {
    if symbols == [] then map[]
    else InvokersOf(symbols[..|symbols| - 1])[symbols[|symbols| - 1].name := SignatureOf(symbols[|symbols| - 1])]
  }

  predicate UniqueSymbols(symbols: seq<Api>) {
    forall i, j | 0 <= i < j < |symbols| :: symbols[i].name != symbols[j].name
  }

  /** Every listed symbol has an invoker, that of its own signature if names are unique. */
  lemma {:induction false} ListedHasInvoker(symbols: seq<Api>, i: nat)
    requires i < |symbols|
    ensures symbols[i].name in InvokersOf(symbols)
    ensures UniqueSymbols(symbols) ==> InvokersOf(symbols)[symbols[i].name] == SignatureOf(symbols[i])
  {
    var n := |symbols| - 1;
    if i < n { ListedHasInvoker(symbols[..n], i); }
  }

  /** The runtime keeps the first link of an address. */
  function Link(links: Links, address: nat, invoker: CType): Links {
    if address in links then links else links[address := invoker]
  }

  predicate AsksForItself(name: string) {
    name == "glXGetProcAddress" || name == "glXGetProcAddressARB"
  }

  /** The links after a query for `name` that the host answers with `address`. */
  function LinksAfter(invokers: Invokers, links: Links, name: string, address: nat): Links {
    if address != 0 && name in invokers then Link(links, address, invokers[name]) else links
  }

  class ProcTable {
    const invokers: Invokers
    const self: nat
    var links: Links

    constructor (symbols: seq<Api>, self: nat)
      ensures invokers == InvokersOf(symbols) && links == map[] && this.self == self
      ensures forall i | 0 <= i < |symbols| :: symbols[i].name in invokers
      ensures UniqueSymbols(symbols) ==> forall i | 0 <= i < |symbols| ::
              invokers[symbols[i].name] == SignatureOf(symbols[i])
    {
      var ret: Invokers := map[];
      for i := 0 to |symbols|
        invariant ret == InvokersOf(symbols[..i])
      {
        assert symbols[..i + 1][..i] == symbols[..i];
        ret := ret[symbols[i].name := SignatureOf(symbols[i])];
      }
      assert symbols[..|symbols|] == symbols;
      this.invokers := ret;
      this.self := self;
      links := map[];
      forall i | 0 <= i < |symbols|
        ensures symbols[i].name in ret && (UniqueSymbols(symbols) ==> ret[symbols[i].name] == SignatureOf(symbols[i]))
      {
        ListedHasInvoker(symbols, i);
      }
    }

    method LinkAddressToFunction(address: nat, invoker: CType)
      requires address != 0
      modifies this`links
      ensures links == Link(old(links), address, invoker)
    {
      if address !in links { links := links[address := invoker]; }
    }

    /** `hostAnswer` is what the host's own `glXGetProcAddress` returned. */
    method GetProcAddress(name: string, hostAnswer: nat) returns (r: nat)
      modifies this`links
      ensures links == LinksAfter(invokers, old(links), name, hostAnswer)
      ensures r != 0 ==> r == self || (r == hostAnswer && name in invokers && r in links)
      ensures hostAnswer != 0 && name in invokers ==> r == hostAnswer
      ensures hostAnswer != 0 && name !in invokers && name in ["glXGetProcAddress", "glXGetProcAddressARB"]
              ==> r == self
      ensures hostAnswer == 0 || (name !in invokers && name !in ["glXGetProcAddress", "glXGetProcAddressARB"])
              ==> r == 0
    {
      if hostAnswer == 0 {
        return 0;
      }
      if name !in invokers {
        if AsksForItself(name) {
          return self;
        }
        return 0;
      }
      LinkAddressToFunction(hostAnswer, invokers[name]);
      return hostAnswer;
    }
  }

  // ----- any number of queries -----

  datatype Query = Query(name: string, answer: nat)

  function AllLinks(invokers: Invokers, links: Links, qs: seq<Query>): Links {
    if qs == [] then links
    else
      var last := qs[|qs| - 1];
      LinksAfter(invokers, AllLinks(invokers, links, qs[..|qs| - 1]), last.name, last.answer)
  }

  predicate Answered(invokers: Invokers, q: Query) {
    q.answer != 0 && q.name in invokers
  }

  /** Every pointer that was handed out is linked to the invoker of the name it was asked for. */
  predicate LinkedByName(invokers: Invokers, links: Links, qs: seq<Query>) {
    forall i | 0 <= i < |qs| && Answered(invokers, qs[i]) :: qs[i].answer in links
        && links[qs[i].answer] == invokers[qs[i].name]
  }

  /** The host answers two names with one pointer only if they have one signature. */
  predicate SharedPointersAgree(invokers: Invokers, qs: seq<Query>) {
    forall i, j | 0 <= i < |qs| && 0 <= j < |qs| && Answered(invokers, qs[i]) && Answered(invokers, qs[j])
      && qs[i].answer == qs[j].answer :: invokers[qs[i].name] == invokers[qs[j].name]
  }

  lemma {:induction false} LinksComeFromQueries(invokers: Invokers, qs: seq<Query>, a: nat) returns (i: nat)
    requires a in AllLinks(invokers, map[], qs)
    ensures i < |qs| && Answered(invokers, qs[i]) && qs[i].answer == a
            && AllLinks(invokers, map[], qs)[a] == invokers[qs[i].name]
  {
    var n := |qs| - 1;
    if a in AllLinks(invokers, map[], qs[..n]) {
      i := LinksComeFromQueries(invokers, qs[..n], a);
    } else {
      i := n;
    }
  }

  /** Over any run of queries: linked by name if and only if shared pointers agree. */
  lemma {:induction false} LinkedByNameExactly(invokers: Invokers, qs: seq<Query>)
    ensures LinkedByName(invokers, AllLinks(invokers, map[], qs), qs) <==> SharedPointersAgree(invokers, qs)
  {
    var links := AllLinks(invokers, map[], qs);
    if SharedPointersAgree(invokers, qs) {
      forall i | 0 <= i < |qs| && Answered(invokers, qs[i])
        ensures qs[i].answer in links && links[qs[i].answer] == invokers[qs[i].name]
      {
        AnsweredIsLinked(invokers, qs, i);
        var j := LinksComeFromQueries(invokers, qs, qs[i].answer);
      }
    }
  }

  lemma {:induction false} AnsweredIsLinked(invokers: Invokers, qs: seq<Query>, i: nat)
    requires i < |qs| && Answered(invokers, qs[i])
    ensures qs[i].answer in AllLinks(invokers, map[], qs)
  {
    var n := |qs| - 1;
    if i < n { AnsweredIsLinked(invokers, qs[..n], i); }
  }

  /** Two aliases of one host function with different signatures: the second keeps the first one's invoker. */
  lemma SharedPointerMislinked(s: CType, t: CType)
    requires s != t
    ensures var invokers := map["f" := s, "g" := t];
            !LinkedByName(invokers, AllLinks(invokers, map[], [Query("f", 1), Query("g", 1)]),
                [Query("f", 1), Query("g", 1)])
  {
    var invokers := map["f" := s, "g" := t];
    var qs := [Query("f", 1), Query("g", 1)];
    LinkedByNameExactly(invokers, qs);
    assert invokers[qs[0].name] != invokers[qs[1].name];
  }

  // ----- from the pointer to the host -----

  lemma {:induction false} InvokerFrom(symbols: seq<Api>, name: string) returns (i: nat)
    requires name in InvokersOf(symbols)
    ensures i < |symbols| && symbols[i].name == name && InvokersOf(symbols)[name] == SignatureOf(symbols[i])
  {
    var n := |symbols| - 1;
    if symbols[n].name == name {
      i := n;
    } else {
      i := InvokerFrom(symbols[..n], name);
    }
  }

  /** The API functions of list `k`. */
  function Listing(api: seq<Api>, k: nat): seq<Api> {
    if api == [] then [] else (if ListOf(api[0]) == k then [api[0]] else []) + Listing(api[1..], k)
  }

  lemma {:induction false} ListingFrom(api: seq<Api>, k: nat, a: Api) returns (i: nat)
    requires a in Listing(api, k)
    ensures i < |api| && api[i] == a && ListOf(a) == k
  {
    if ListOf(api[0]) == k && api[0] == a {
      i := 0;
    } else {
      i := ListingFrom(api[1..], k, a);
      i := i + 1;
    }
  }

  /**
   Every pointer handed out for a symbol of a callable list leads, through the invoker it is linked to and the
   digest of its signature, to the host side of that same signature.
   */
  lemma HandedOutPointerReachesHost(lib: string, sha: Sha, st: State, k: nat, qs: seq<Query>, i: nat,
      table: map<seq<byte>, string>)
    requires Invariant(st) && !st.failed && NamedProperly(st) && Digests(sha, lib, st) && ListCallable(st, k)
    requires i < |qs| && Answered(InvokersOf(Listing(st.api, k)), qs[i])
    requires SharedPointersAgree(InvokersOf(Listing(st.api, k)), qs)
    ensures var links := AllLinks(InvokersOf(Listing(st.api, k)), map[], qs);
            && qs[i].answer in links
            && (exists j | 0 <= j < |st.api| :: st.api[j].name == qs[i].name
                  && links[qs[i].answer] == SignatureOf(st.api[j]))
            && ReachesHost(lib, sha, st, links[qs[i].answer], table)
  {
    var symbols := Listing(st.api, k);
    var invokers := InvokersOf(symbols);
    LinkedByNameExactly(invokers, qs);
    var s := InvokerFrom(symbols, qs[i].name);
    var j := ListingFrom(st.api, k, symbols[s]);
    assert SignatureOf(st.api[j]) in st.types;
    CallableExactly(SignatureOf(st.api[j]));
    var c := CallbackReached(lib, sha, st, SignatureOf(st.api[j]), table);
  }

  /**
   Guest code has an invoker and a thunk for `t`, and its digest is loaded for the host side of `t`, which is
   defined.
   */
  ghost predicate ReachesHost(lib: string, sha: Sha, st: State, t: CType, table: map<seq<byte>, string>) {
    var f := FilesOf(lib, sha, st);
    && CallHostFunctionCompiles(t) && ForIndirectCallCompiles(t)
    && exists c | 0 <= c < |f.callbackThunks| ::
      && f.callbackThunks[c].signature == Text(Signature(t))
      && var digest := ParseByteList(f.callbackThunks[c].bytes);
         && digest.Some? && digest.value in LoadExports(f.exports, table)
         && LoadExports(f.exports, table)[digest.value] == CallbackTarget(Text(Signature(t)))
  }
}
