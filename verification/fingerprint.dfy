/**
 * The record fingerprint of backend/app/parser.py (and, unchanged, of
 * backend/app/parser.back.py): SHA-256 over `id|time|lat|lon`, with an empty
 * field for each missing value.
 */
module Fingerprint {
  import opened Options
  import opened Strings

  /**
   * A SHA-256 digest, kept symbolic: two digests are equal exactly when their
   * preimages are, which idealises the hash as free of collisions.
   */
  datatype Digest = Sha256(preimage: string)

  /** `(x or "")` for an optional text. */
  function TextField(o: Option<string>): (f: string)
    ensures o.Some? ==> f == o.value
    ensures o.None? ==> f == []
  {
    if o.Some? then o.value else []
  }

  /** `str(v) if v is not None else ""`, with `str` on floats supplied as `render`. */
  function CoordField(v: Option<real>, render: real -> string): (f: string)
    ensures v.Some? ==> f == render(v.value)
    ensures v.None? ==> f == []
  {
    if v.Some? then render(v.value) else []
  }

  /** The text that is hashed: the four fields joined by `|`. */
  function Preimage(flightId: Option<string>, startTime: Option<string>, lat: Option<real>, lon: Option<real>,
                    render: real -> string): string
  {
    TextField(flightId) + "|" + TextField(startTime) + "|" + CoordField(lat, render) + "|" + CoordField(lon, render)
  }

  /** `make_fingerprint` (backend/app/parser.py:151-154, backend/app/parser.back.py:230-232). */
  function MakeFingerprint(flightId: Option<string>, startTime: Option<string>, lat: Option<real>, lon: Option<real>,
                           render: real -> string): (d: Digest)
    ensures d.preimage == Preimage(flightId, startTime, lat, lon, render)
  {
    Sha256(Preimage(flightId, startTime, lat, lon, render))
  }

  /** With every field missing the preimage is the fixed text `|||`. */
  lemma AllMissing(render: real -> string)
    ensures MakeFingerprint(None, None, None, None, render) == Sha256("|||")
  {
  }

  /** The four fields can be read back from the preimage when none of them holds a `|`. */
  lemma {:induction false} PreimageFields(flightId: Option<string>, startTime: Option<string>, lat: Option<real>,
                                          lon: Option<real>, render: real -> string)
    requires '|' !in TextField(flightId) && '|' !in TextField(startTime)
    requires '|' !in CoordField(lat, render) && '|' !in CoordField(lon, render)
    ensures Split(Preimage(flightId, startTime, lat, lon, render), '|')
         == [TextField(flightId), TextField(startTime), CoordField(lat, render), CoordField(lon, render)]
  {
    var a, b, c, d := TextField(flightId), TextField(startTime), CoordField(lat, render), CoordField(lon, render);
    assert Preimage(flightId, startTime, lat, lon, render) == a + ['|'] + (b + ['|'] + (c + ['|'] + d));
    JoinFour(a, b, c, d);
    SplitOfJoin([a, b, c, d], '|');
  }

  lemma JoinFour(a: string, b: string, c: string, d: string)
    ensures Join([a, b, c, d], '|') == a + ['|'] + (b + ['|'] + (c + ['|'] + d))
  {
    assert Join([d], '|') == d;
    JoinCons(c, [d], '|');
    assert [c] + [d] == [c, d];
    JoinCons(b, [c, d], '|');
    assert [b] + [c, d] == [b, c, d];
    JoinCons(a, [b, c, d], '|');
    assert [a] + [b, c, d] == [a, b, c, d];
  }

  /**
   * Equal fingerprints mean equal fields (given no `|` inside them), so the
   * fingerprint tells records apart by exactly these four values.
   */
  lemma FingerprintDeterminesFields(f1: Option<string>, t1: Option<string>, la1: Option<real>, lo1: Option<real>,
                                    f2: Option<string>, t2: Option<string>, la2: Option<real>, lo2: Option<real>,
                                    render: real -> string)
    requires '|' !in TextField(f1) && '|' !in TextField(t1) && '|' !in CoordField(la1, render) && '|' !in CoordField(lo1, render)
    requires '|' !in TextField(f2) && '|' !in TextField(t2) && '|' !in CoordField(la2, render) && '|' !in CoordField(lo2, render)
    requires MakeFingerprint(f1, t1, la1, lo1, render) == MakeFingerprint(f2, t2, la2, lo2, render)
    ensures TextField(f1) == TextField(f2) && TextField(t1) == TextField(t2)
    ensures CoordField(la1, render) == CoordField(la2, render) && CoordField(lo1, render) == CoordField(lo2, render)
  {
    PreimageFields(f1, t1, la1, lo1, render);
    PreimageFields(f2, t2, la2, lo2, render);
  }
}
