/**
 * The LiveView variant plugin: a registration callback that the styling
 * engine calls once with its `addVariant` capability, and that registers
 * four variants keyed on marker classes LiveView applies to elements (the
 * three `-loading` classes while an event is in flight, `phx-no-feedback`
 * on inputs not yet interacted with), so that markup can write
 * `phx-click-loading:animate-ping`.
 *
 * The engine's variant table is a class updated in place; each call to
 * `addVariant` overwrites the entry for its name (last write wins) and is
 * recorded in a call log.
 */
module Variants {
  import opened Selectors

  /** One call to `addVariant`: the variant name and its ordered pattern list. */
  type Declaration = (string, seq<string>)

  /** The four calls of the callback, in source order, with their literal arguments. */
  const NoFeedback: Declaration := ("phx-no-feedback", [".phx-no-feedback&", ".phx-no-feedback &"])
  const ClickLoading: Declaration := ("phx-click-loading", [".phx-click-loading&", ".phx-click-loading &"])
  const SubmitLoading: Declaration := ("phx-submit-loading", [".phx-submit-loading&", ".phx-submit-loading &"])
  const ChangeLoading: Declaration := ("phx-change-loading", [".phx-change-loading&", ".phx-change-loading &"])

  const Declarations: seq<Declaration> := [NoFeedback, ClickLoading, SubmitLoading, ChangeLoading]

  /** The table that results from making the calls `ds`, in order, on table `m`. */
  function Apply(m: map<string, seq<string>>, ds: seq<Declaration>): map<string, seq<string>>
    decreases ds
  {
    if ds == [] then m else Apply(m[ds[0].0 := ds[0].1], ds[1..])
  }

  /** The names the calls `ds` register. */
  function Names(ds: seq<Declaration>): set<string> {
    set i | 0 <= i < |ds| :: ds[i].0
  }

  /** Making one more call updates exactly the entry of that call's name. */
  lemma {:induction false} ApplySnoc(m: map<string, seq<string>>, ds: seq<Declaration>, d: Declaration)
    ensures Apply(m, ds + [d]) == Apply(m, ds)[d.0 := d.1]
    decreases ds
  {
    if ds == [] {
      assert [] + [d] == [d];
    } else {
      assert (ds + [d])[1..] == ds[1..] + [d];
      ApplySnoc(m[ds[0].0 := ds[0].1], ds[1..], d);
    }
  }

  /** The calls only add entries: the result is the old table overridden by what the calls register. */
  lemma {:induction false} ApplyOverrides(m: map<string, seq<string>>, ds: seq<Declaration>)
    ensures Apply(m, ds) == m + Apply(map[], ds)
    decreases ds
  {
    if ds != [] {
      var d := ds[0];
      ApplyOverrides(m[d.0 := d.1], ds[1..]);
      ApplyOverrides(map[d.0 := d.1], ds[1..]);
      assert map[][d.0 := d.1] == map[d.0 := d.1];
    }
  }

  /** Making the same calls twice leaves the same table as making them once (overwrite, not duplication). */
  lemma ApplyIdempotent(m: map<string, seq<string>>, ds: seq<Declaration>)
    ensures Apply(Apply(m, ds), ds) == Apply(m, ds)
  {
    ApplyOverrides(m, ds);
    ApplyOverrides(Apply(m, ds), ds);
  }

  /** The calls add exactly their own names to the table's keys. */
  lemma {:induction false} ApplyKeys(m: map<string, seq<string>>, ds: seq<Declaration>)
    ensures Apply(m, ds).Keys == m.Keys + Names(ds)
    decreases ds
  {
    if ds != [] {
      ApplyKeys(m[ds[0].0 := ds[0].1], ds[1..]);
      assert Names(ds) == {ds[0].0} + Names(ds[1..]) by {
        forall n | n in Names(ds) ensures n in {ds[0].0} + Names(ds[1..]) {
          var i :| 0 <= i < |ds| && ds[i].0 == n;
          if i > 0 { assert ds[1..][i - 1] == ds[i]; }
        }
        forall n | n in Names(ds[1..]) ensures n in Names(ds) {
          var i :| 0 <= i < |ds[1..]| && ds[1..][i].0 == n;
          assert ds[i + 1] == ds[1..][i];
        }
      }
    }
  }

  /** A name that no later call registers again keeps the patterns of its call. */
  lemma {:induction false} ApplyLookup(m: map<string, seq<string>>, ds: seq<Declaration>, i: nat)
    requires i < |ds|
    requires forall j :: i < j < |ds| ==> ds[j].0 != ds[i].0
    ensures ds[i].0 in Apply(m, ds) && Apply(m, ds)[ds[i].0] == ds[i].1
    decreases ds
  {
    ApplyOverrides(m, ds);
    if i == 0 {
      ApplyOverrides(map[ds[0].0 := ds[0].1], ds[1..]);
      ApplyKeys(map[], ds[1..]);
      forall j | 0 <= j < |ds[1..]| ensures ds[1..][j].0 != ds[0].0 {
        assert ds[1..][j] == ds[j + 1];
      }
    } else {
      var d := ds[0];
      forall j | i - 1 < j < |ds[1..]| ensures ds[1..][j].0 != ds[1..][i - 1].0 {
        assert ds[1..][j] == ds[j + 1];
      }
      ApplyLookup(map[d.0 := d.1], ds[1..], i - 1);
      ApplyOverrides(map[d.0 := d.1], ds[1..]);
    }
  }

  /**
   * The literal table is regular: four variants, in source order, each a
   * `phx-` marker class name, pairwise distinct, each registered with
   * exactly `Patterns(name)`.
   */
  lemma DeclarationsAreRegular()
    ensures |Declarations| == 4
    ensures Declarations[0].0 == "phx-no-feedback" && Declarations[1].0 == "phx-click-loading"
    ensures Declarations[2].0 == "phx-submit-loading" && Declarations[3].0 == "phx-change-loading"
    ensures forall i :: 0 <= i < |Declarations| ==>
      IsClassName(Declarations[i].0) && "phx-" <= Declarations[i].0 &&
      Declarations[i].1 == Patterns(Declarations[i].0)
    ensures forall i, j :: 0 <= i < j < |Declarations| ==> Declarations[i].0 != Declarations[j].0
  {
    forall i | 0 <= i < |Declarations|
      ensures IsClassName(Declarations[i].0) && "phx-" <= Declarations[i].0
      ensures Declarations[i].1 == Patterns(Declarations[i].0)
    {
      DeclarationIsRegular(i);
    }
  }

  /** One row of the literal table: a `phx-` class name registered with exactly `Patterns(name)`. */
  lemma DeclarationIsRegular(i: nat)
    requires i < |Declarations|
    ensures IsClassName(Declarations[i].0) && "phx-" <= Declarations[i].0
    ensures Declarations[i].1 == Patterns(Declarations[i].0)
  {
    if i == 0 {
      NoFeedbackIsRegular();
    } else if i == 1 {
      ClickLoadingIsRegular();
    } else if i == 2 {
      SubmitLoadingIsRegular();
    } else {
      ChangeLoadingIsRegular();
    }
  }

  /** The `phx-no-feedback` call: both literal patterns are those `Patterns` builds from the name. */
  lemma NoFeedbackIsRegular()
    ensures IsClassName(NoFeedback.0) && "phx-" <= NoFeedback.0 && NoFeedback.1 == Patterns(NoFeedback.0)
  {
    assert ".phx-no-feedback&" == "." + "phx-no-feedback" + "&";
    assert ".phx-no-feedback &" == "." + "phx-no-feedback" + " " + "&";
  }

  /** The `phx-click-loading` call: both literal patterns are those `Patterns` builds from the name. */
  lemma ClickLoadingIsRegular()
    ensures IsClassName(ClickLoading.0) && "phx-" <= ClickLoading.0 && ClickLoading.1 == Patterns(ClickLoading.0)
  {
    assert ".phx-click-loading&" == "." + "phx-click-loading" + "&";
    assert ".phx-click-loading &" == "." + "phx-click-loading" + " " + "&";
  }

  /** The `phx-submit-loading` call: both literal patterns are those `Patterns` builds from the name. */
  lemma SubmitLoadingIsRegular()
    ensures IsClassName(SubmitLoading.0) && "phx-" <= SubmitLoading.0 && SubmitLoading.1 == Patterns(SubmitLoading.0)
  {
    assert ".phx-submit-loading&" == "." + "phx-submit-loading" + "&";
    assert ".phx-submit-loading &" == "." + "phx-submit-loading" + " " + "&";
  }

  /** The `phx-change-loading` call: both literal patterns are those `Patterns` builds from the name. */
  lemma ChangeLoadingIsRegular()
    ensures IsClassName(ChangeLoading.0) && "phx-" <= ChangeLoading.0 && ChangeLoading.1 == Patterns(ChangeLoading.0)
  {
    assert ".phx-change-loading&" == "." + "phx-change-loading" + "&";
    assert ".phx-change-loading &" == "." + "phx-change-loading" + " " + "&";
  }

  /** Every registered pattern holds exactly one placeholder, as its last character. */
  lemma RegisteredPatternsEndInPlaceholder()
    ensures forall i, k :: 0 <= i < |Declarations| && 0 <= k < |Declarations[i].1| ==>
      var p := Declarations[i].1[k];
      p[|p| - 1] == Placeholder && Count(p, Placeholder) == 1
  {
    forall i, k | 0 <= i < |Declarations| && 0 <= k < |Declarations[i].1|
      ensures var p := Declarations[i].1[k]; p[|p| - 1] == Placeholder && Count(p, Placeholder) == 1
    {
      DeclarationIsRegular(i);
      PlaceholderOnceAtEnd(Declarations[i].0, k);
    }
  }

  /** No pattern is registered twice: the eight patterns are pairwise distinct. */
  lemma RegisteredPatternsDistinct(i: nat, k: nat, j: nat, l: nat)
    requires i < |Declarations| && j < |Declarations| && k < 2 && l < 2
    requires Declarations[i].1[k] == Declarations[j].1[l]
    ensures i == j && k == l
  {
    DeclarationIsRegular(i);
    DeclarationIsRegular(j);
    PatternsDetermineMarker(Declarations[i].0, Declarations[j].0, k, l);
    DeclarationsAreRegular();
  }

  /**
   * Starting from an empty table, the four calls leave exactly the four
   * names, each mapped to its two patterns in order.
   */
  lemma RegisteredTable()
    ensures Apply(map[], Declarations).Keys ==
      {"phx-no-feedback", "phx-click-loading", "phx-submit-loading", "phx-change-loading"}
    ensures forall name :: name in Apply(map[], Declarations) ==> Apply(map[], Declarations)[name] == Patterns(name)
  {
    DeclarationsAreRegular();
    ApplyKeys(map[], Declarations);
    assert Names(Declarations) ==
      {"phx-no-feedback", "phx-click-loading", "phx-submit-loading", "phx-change-loading"} by {
      assert Declarations[0].0 in Names(Declarations);
      assert Declarations[1].0 in Names(Declarations);
      assert Declarations[2].0 in Names(Declarations);
      assert Declarations[3].0 in Names(Declarations);
    }
    forall name | name in Apply(map[], Declarations)
      ensures Apply(map[], Declarations)[name] == Patterns(name)
    {
      var i :| 0 <= i < |Declarations| && Declarations[i].0 == name;
      ApplyLookup(map[], Declarations, i);
    }
  }

  /** The styling engine's variant table, as seen through `addVariant`. */
  class VariantTable {
    /** The registered variants: name to ordered pattern list. */
    var variants: map<string, seq<string>>
    /** Every `addVariant` call made so far, in order. */
    var calls: seq<Declaration>

    /** The table is what the logged calls leave when made on an empty table. */
    ghost predicate Valid()
      reads this
    {
      variants == Apply(map[], calls)
    }

    constructor ()
      ensures Valid()
      ensures variants == map[] && calls == []
    {
      variants := map[];
      calls := [];
    }

    /** `addVariant(name, patterns)`: sets the entry for `name` and changes no other. */
    method AddVariant(name: string, patterns: seq<string>)
      requires Valid()
      modifies this
      ensures Valid()
      ensures calls == old(calls) + [(name, patterns)]
      ensures variants == old(variants)[name := patterns]
      ensures forall n :: n != name ==> (n in variants <==> n in old(variants))
      ensures forall n :: n != name && n in variants ==> variants[n] == old(variants)[n]
    {
      ApplySnoc(map[], calls, (name, patterns));
      variants := variants[name := patterns];
      calls := calls + [(name, patterns)];
    }
  }

  /**
   * The registration callback: four `addVariant` calls with literal
   * arguments, in source order.
   */
  method Register(host: VariantTable)
    requires host.Valid()
    modifies host
    ensures host.Valid()
    ensures host.calls == old(host.calls) + Declarations
    ensures host.variants == Apply(old(host.variants), Declarations)
  {
    ghost var m0 := host.variants;
    host.AddVariant("phx-no-feedback", [".phx-no-feedback&", ".phx-no-feedback &"]);
    host.AddVariant("phx-click-loading", [".phx-click-loading&", ".phx-click-loading &"]);
    host.AddVariant("phx-submit-loading", [".phx-submit-loading&", ".phx-submit-loading &"]);
    host.AddVariant("phx-change-loading", [".phx-change-loading&", ".phx-change-loading &"]);
    assert [] + [NoFeedback] == [NoFeedback];
    ApplySnoc(m0, [], NoFeedback);
    ApplySnoc(m0, [NoFeedback], ClickLoading);
    ApplySnoc(m0, [NoFeedback, ClickLoading], SubmitLoading);
    ApplySnoc(m0, [NoFeedback, ClickLoading, SubmitLoading], ChangeLoading);
    assert Apply(m0, []) == m0;
    assert [NoFeedback, ClickLoading, SubmitLoading] + [ChangeLoading] == Declarations;
  }

  /** What the engine sees when it loads the plugin once on a fresh table. */
  method LoadPlugin() returns (variants: map<string, seq<string>>, calls: seq<Declaration>)
    ensures calls == Declarations
    ensures variants.Keys == {"phx-no-feedback", "phx-click-loading", "phx-submit-loading", "phx-change-loading"}
    ensures forall name :: name in variants ==> variants[name] == Patterns(name)
  {
    var host := new VariantTable();
    Register(host);
    RegisteredTable();
    variants, calls := host.variants, host.calls;
  }
}
