/** `HotKeyCenter`: registers a list of chords with one fresh registrar each, all or nothing,
    and dispatches only pressed events to their handlers. */
module HotKeyRegistration {
  import opened Wrappers
  import opened Domain
  import opened HotKeyManagement

  /** One live registration: which registrar (numbered in the order the factory made them),
      the chord, the token it returned and the handler it runs. */
  datatype Registration<H> = Registration(registrar: nat, chord: HotKeyChord, token: Token, handler: H)

  /** What the n-th registrar made returns when asked to register a chord. */
  type Registrar = (nat, HotKeyChord) -> Result<Token, Failure>

  /** The wrapper around each handler: it runs for pressed events only. */
  function Dispatched<H>(handler: H, kind: HotKeyEventKind): (fired: Option<H>)
    ensures fired.Some? <==> kind == Pressed
    ensures fired.Some? ==> fired.value == handler
  {
    if kind == Pressed then Some(handler) else None
  }

  function Tokens<H>(registrations: seq<Registration<H>>): (r: seq<Token>)
    ensures |r| == |registrations|
    ensures forall i :: 0 <= i < |r| ==> r[i] == registrations[i].token
  {
    if registrations == [] then []
    else [registrations[0].token] + Tokens(registrations[1..])
  }

  lemma {:induction false} TokensAppend<H>(a: seq<Registration<H>>, b: seq<Registration<H>>)
    ensures Tokens(a + b) == Tokens(a) + Tokens(b)
  {
    if a == [] {
      assert a + b == b;
    } else {
      assert (a + b)[1..] == a[1..] + b;
      TokensAppend(a[1..], b);
    }
  }

  /** The registration the i-th entry gets from the registrar numbered `first + i`. */
  function Expected<H>(entries: seq<(HotKeyChord, H)>, registrar: Registrar, first: nat, i: nat): Registration<H>
    requires i < |entries| && registrar(first + i, entries[i].0).Ok?
  {
    Registration(first + i, entries[i].0, registrar(first + i, entries[i].0).value, entries[i].1)
  }

  /** The registrations of the first k entries, when all of them succeed. */
  function ExpectedUpTo<H>(entries: seq<(HotKeyChord, H)>, registrar: Registrar, first: nat, k: nat): (r: seq<Registration<H>>)
    requires k <= |entries| && forall i :: 0 <= i < k ==> registrar(first + i, entries[i].0).Ok?
    ensures |r| == k && forall i :: 0 <= i < k ==> r[i] == Expected(entries, registrar, first, i)
  {
    seq(k, i requires 0 <= i < k => Expected(entries, registrar, first, i))
  }

  lemma ExpectedUpToStep<H>(entries: seq<(HotKeyChord, H)>, registrar: Registrar, first: nat, k: nat)
    requires k < |entries| && forall i :: 0 <= i <= k ==> registrar(first + i, entries[i].0).Ok?
    ensures ExpectedUpTo(entries, registrar, first, k + 1)
         == ExpectedUpTo(entries, registrar, first, k) + [Expected(entries, registrar, first, k)]
  {
  }

  /** The k-th entry is the first whose registration throws. */
  predicate FailsFirstAt<H>(entries: seq<(HotKeyChord, H)>, registrar: Registrar, first: nat, k: nat) {
    && k < |entries|
    && (forall i :: 0 <= i < k ==> registrar(first + i, entries[i].0).Ok?)
    && registrar(first + k, entries[k].0).Err?
  }

  class HotKeyCenter<H> {
    var registrations: seq<Registration<H>>
    /** How many registrars the factory has made. */
    var registrarsMade: nat
    /** The tokens unregistered, in order. */
    var unregistered: seq<Token>

    constructor ()
      ensures registrations == [] && registrarsMade == 0 && unregistered == []
    {
      registrations := [];
      registrarsMade := 0;
      unregistered := [];
    }

    /** `unregisterAll()`: unregisters every token in order and empties the list. */
    method UnregisterAll()
      modifies this
      ensures unregistered == old(unregistered) + Tokens(old(registrations))
      ensures registrations == [] && registrarsMade == old(registrarsMade)
    {
      for i := 0 to |registrations|
        invariant registrations == old(registrations) && registrarsMade == old(registrarsMade)
        invariant unregistered == old(unregistered) + Tokens(registrations[..i])
      {
        TokensAppend(registrations[..i], [registrations[i]]);
        assert registrations[..i + 1] == registrations[..i] + [registrations[i]];
        unregistered := unregistered + [registrations[i].token];
      }
      assert registrations[..|registrations|] == registrations;
      registrations := [];
    }

    /** `register(_:)`: unregisters what was registered, then registers each entry in order
        with a fresh registrar. When every registration succeeds, there is one per entry, in
        entry order; when one throws, those made so far are unregistered too, the list is
        left empty and that first error is rethrown. */
    method Register(entries: seq<(HotKeyChord, H)>, registrar: Registrar) returns (r: Result<(), Failure>)
      modifies this
      ensures r.Ok? <==> forall i :: 0 <= i < |entries| ==> registrar(old(registrarsMade) + i, entries[i].0).Ok?
      ensures r.Ok? ==>
        && registrarsMade == old(registrarsMade) + |entries|
        && registrations == ExpectedUpTo(entries, registrar, old(registrarsMade), |entries|)
        && unregistered == old(unregistered) + Tokens(old(registrations))
      ensures r.Err? ==> registrations == [] && exists k: nat ::
        && FailsFirstAt(entries, registrar, old(registrarsMade), k)
        && r.error == registrar(old(registrarsMade) + k, entries[k].0).error
        && registrarsMade == old(registrarsMade) + k + 1
        && unregistered == old(unregistered) + Tokens(old(registrations)) + Tokens(ExpectedUpTo(entries, registrar, old(registrarsMade), k))
    {
      UnregisterAll();
      r := RegisterEach(entries, registrar);
    }

    /** The loop of `register(_:)`, starting from an empty list. */
    method RegisterEach(entries: seq<(HotKeyChord, H)>, registrar: Registrar) returns (r: Result<(), Failure>)
      requires registrations == []
      modifies this
      ensures r.Ok? <==> forall i :: 0 <= i < |entries| ==> registrar(old(registrarsMade) + i, entries[i].0).Ok?
      ensures r.Ok? ==>
        && registrarsMade == old(registrarsMade) + |entries|
        && registrations == ExpectedUpTo(entries, registrar, old(registrarsMade), |entries|)
        && unregistered == old(unregistered)
      ensures r.Err? ==> registrations == [] && exists k: nat ::
        && FailsFirstAt(entries, registrar, old(registrarsMade), k)
        && r.error == registrar(old(registrarsMade) + k, entries[k].0).error
        && registrarsMade == old(registrarsMade) + k + 1
        && unregistered == old(unregistered) + Tokens(ExpectedUpTo(entries, registrar, old(registrarsMade), k))
    {
      ghost var first := registrarsMade;
      for i := 0 to |entries|
        invariant registrarsMade == first + i && unregistered == old(unregistered)
        invariant forall j :: 0 <= j < i ==> registrar(first + j, entries[j].0).Ok?
        invariant registrations == ExpectedUpTo(entries, registrar, first, i)
      {
        var (chord, handler) := entries[i];
        var n := registrarsMade;
        registrarsMade := registrarsMade + 1;
        var outcome := registrar(n, chord);
        if outcome.Err? {
          UnregisterAll();
          assert FailsFirstAt(entries, registrar, first, i);
          return Err(outcome.error);
        }
        ExpectedUpToStep(entries, registrar, first, i);
        registrations := registrations + [Registration(n, chord, outcome.value, handler)];
      }
      return Ok(());
    }
  }
}
