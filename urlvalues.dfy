/** `url.Values.Encode` of Go's net/url package, as `Lookup` applies it to
    the parameters (geocode.go:87): the names in sorted order, each written
    as "name=value", the pairs joined by '&'. Percent-escaping is
    `url.QueryEscape`, which is not modelled: it is passed in as `escape`. */
module UrlValues {
  import opened QueryParams

  /** Strict lexicographic order of strings, comparing characters by code
      point; on UTF-8 text this is the byte order Go's `<` on strings and
      `sort.Strings` use. */
  predicate Below(a: string, b: string)
    decreases |a|
  {
    if a == [] then b != []
    else if b == [] then false
    else a[0] < b[0] || (a[0] == b[0] && Below(a[1..], b[1..]))
  }

  lemma {:induction false} BelowIrreflexive(a: string)
    ensures !Below(a, a)
    decreases |a|
  {
    if a != [] {
      BelowIrreflexive(a[1..]);
    }
  }

  lemma {:induction false} BelowTransitive(a: string, b: string, c: string)
    requires Below(a, b) && Below(b, c)
    ensures Below(a, c)
    decreases |a|
  {
    if a != [] && b != [] && c != [] && a[0] == b[0] == c[0] {
      BelowTransitive(a[1..], b[1..], c[1..]);
    }
  }

  /** Every parameter name, in the order `Encode` writes them. */
  const SortedNames: seq<Name> :=
    [Address, Bounds, Channel, Client, Components, Key, Language, LatLng, Region, Sensor, Signature]

  /** Every name occurs in `SortedNames`. */
  lemma AllNamesListed()
    ensures forall n: Name :: n in SortedNames
  {
    var s := SortedNames;
    forall n: Name ensures n in s {
      match n
      case Address => assert s[0] == n;
      case Bounds => assert s[1] == n;
      case Channel => assert s[2] == n;
      case Client => assert s[3] == n;
      case Components => assert s[4] == n;
      case Key => assert s[5] == n;
      case Language => assert s[6] == n;
      case LatLng => assert s[7] == n;
      case Region => assert s[8] == n;
      case Sensor => assert s[9] == n;
      case Signature => assert s[10] == n;
    }
  }

  lemma AdjacentNamesAscend(i: nat)
    requires i + 1 < |SortedNames|
    ensures Below(SortedNames[i].Text(), SortedNames[i + 1].Text())
  {
    if i == 2 {
      assert Below("hannel", "lient");
    } else if i == 3 {
      assert Below("lient", "omponents");
    } else if i == 6 {
      assert Below("anguage", "atlng") by { assert Below("nguage", "tlng"); }
    } else if i == 9 {
      assert Below("ensor", "ignature");
    }
  }

  /** `SortedNames` lists each name once, sorted by its wire text, as
      `Encode` sorts the keys it finds. */
  lemma {:induction false} SortedNamesAreSorted()
    ensures forall n: Name :: n in SortedNames
    ensures forall i, j :: 0 <= i < j < |SortedNames| ==>
              Below(SortedNames[i].Text(), SortedNames[j].Text())
    ensures forall i, j :: 0 <= i < j < |SortedNames| ==> SortedNames[i] != SortedNames[j]
  {
    AllNamesListed();
    var s := SortedNames;
    forall i, j | 0 <= i < j < |s|
      ensures Below(s[i].Text(), s[j].Text()) && s[i] != s[j]
    {
      AdjacentNamesAscend(i);
      var k := i + 1;
      while k < j
        invariant i + 1 <= k <= j
        invariant Below(s[i].Text(), s[k].Text())
      {
        AdjacentNamesAscend(k);
        BelowTransitive(s[i].Text(), s[k].Text(), s[k + 1].Text());
        k := k + 1;
      }
      BelowIrreflexive(s[i].Text());
    }
  }

  lemma ListedTextsDiffer(i: nat, j: nat)
    requires i < j < |SortedNames|
    ensures SortedNames[i].Text() != SortedNames[j].Text()
  {
    SortedNamesAreSorted();
    BelowIrreflexive(SortedNames[i].Text());
  }

  /** Distinct names have distinct wire texts, so keying the parameters by
      `Name` rather than by its text loses nothing. */
  lemma TextIsInjective(a: Name, b: Name)
    ensures a != b ==> a.Text() != b.Text()
  {
    if a != b {
      AllNamesListed();
      var s := SortedNames;
      assert a in s && b in s;
      var i :| 0 <= i < |s| && s[i] == a;
      var j :| 0 <= j < |s| && s[j] == b;
      if i < j {
        ListedTextsDiffer(i, j);
      } else {
        ListedTextsDiffer(j, i);
      }
    }
  }

  /** The pairs for the names of `ns` that `p` holds, in the order of `ns`:
      "name=value" joined by '&'. The text is empty exactly when `p` holds
      none of them, since every pair contains '='. */
  function EncodeNames(ns: seq<Name>, p: Params, escape: string -> string): (e: string)
    ensures e == "" <==> forall i :: 0 <= i < |ns| ==> ns[i] !in p
  {
    if ns == [] then ""
    else
      var rest := EncodeNames(ns[1..], p, escape);
      if ns[0] !in p then rest
      else
        var pair := escape(ns[0].Text()) + "=" + escape(p[ns[0]]);
        assert pair[|escape(ns[0].Text())|] == '=';
        if rest == "" then pair else pair + "&" + rest
  }

  /** `url.Values.Encode`: the encoded query is empty exactly when there are
      no parameters, whatever the escaping does. */
  function Encode(p: Params, escape: string -> string): (e: string)
    ensures e == "" <==> p == map[]
  {
    SortedNamesAreSorted();
    var e := EncodeNames(SortedNames, p, escape);
    assert p != map[] ==> exists i :: 0 <= i < |SortedNames| && SortedNames[i] in p by {
      if p != map[] {
        var k :| k in p;
        assert k in SortedNames;
      }
    }
    e
  }
}
