/** The functions a measure expression may call: crates/graphnight-core/src/formula.rs. */
module AllowedFunctions {
  import opened Results
  import opened EditDistance
  import opened FunctionCalls

  const STRING_FUNCTIONS: seq<string> := [
    "lower", "upper", "length", "char_length", "trim", "btrim", "ltrim", "rtrim", "substring",
    "substr", "replace", "concat", "left", "right"
  ]

  const NUMERIC_AND_DATE_FUNCTIONS: seq<string> := [
    "abs", "round", "ceil", "ceiling", "floor", "trunc", "sqrt", "power", "pow", "sign", "mod",
    "greatest", "least", "date_trunc", "extract", "date_part", "to_char", "age"
  ]

  const SPATIAL_MEASURES: seq<string> := [
    "st_area", "st_perimeter", "st_length", "st_npoints", "st_numgeometries", "st_numinteriorrings",
    "st_geometrytype", "st_srid", "st_isvalid", "st_isempty", "st_ismalformed", "st_dimension",
    "st_zmflag"
  ]

  const SPATIAL_COORDINATES: seq<string> := [
    "st_x", "st_y", "st_z", "st_m", "st_xmin", "st_xmax", "st_ymin", "st_ymax", "st_mindim",
    "st_maxdim"
  ]

  const SPATIAL_CONVERSIONS: seq<string> := [
    "st_envelope", "st_expand", "st_buffer", "st_simplify", "st_transform", "st_astext", "st_aswkt",
    "st_asbinary", "st_asgml", "st_asgeojson", "st_geohash", "st_point", "st_makepoint",
    "st_centroid"
  ]

  const SPATIAL_RELATIONS: seq<string> := [
    "st_contains", "st_within", "st_intersects", "st_disjoint", "st_touches", "st_overlaps",
    "st_crosses", "st_equals"
  ]

  const SPATIAL_DISTANCES: seq<string> := [
    "st_dwithin", "st_distance", "st_distancesphere", "st_distancewithin", "st_hausdorffdistance",
    "st_lineintersects", "st_linelocatepoint", "st_linelength", "st_azimuth", "st_boundingbox",
    "st_remap"
  ]

  const ALLOWED_FUNCTIONS: seq<string> :=
    STRING_FUNCTIONS + NUMERIC_AND_DATE_FUNCTIONS + SPATIAL_MEASURES +
    SPATIAL_COORDINATES + SPATIAL_CONVERSIONS + SPATIAL_RELATIONS + SPATIAL_DISTANCES

  /** Names are compared without regard to ASCII case. */
  predicate IsAllowedFunction(name: string) {
    exists f | f in ALLOWED_FUNCTIONS :: Lowered(f) == Lowered(name)
  }

  lemma CaseKeepsPlain(f: string, name: string)
    requires IsPlainIdentifier(f) && Lowered(f) == Lowered(name)
    ensures IsPlainIdentifier(name)
  {
    assert |f| == |name|;
    forall i | 0 <= i < |f| ensures IsWordChar(f[i]) ==> IsWordChar(name[i]) {
      assert Lowered(f)[i] == Lowered(name)[i];
    }
    assert Lowered(f)[0] == Lowered(name)[0];
  }

  // What the names are made of: letters and underscores.
  predicate IsNameChar(c: char) { IsLetter(c) || c == '_' }

  lemma StringFunctionsChars(name: string, c: char)
    ensures name in STRING_FUNCTIONS && c in name ==> IsNameChar(c)
  {
  }

  lemma NumericAndDateFunctionsChars(name: string, c: char)
    ensures name in NUMERIC_AND_DATE_FUNCTIONS && c in name ==> IsNameChar(c)
  {
  }

  lemma SpatialMeasuresChars(name: string, c: char)
    ensures name in SPATIAL_MEASURES && c in name ==> IsNameChar(c)
  {
  }

  lemma SpatialCoordinatesChars(name: string, c: char)
    ensures name in SPATIAL_COORDINATES && c in name ==> IsNameChar(c)
  {
  }

  lemma SpatialConversionsChars(name: string, c: char)
    ensures name in SPATIAL_CONVERSIONS && c in name ==> IsNameChar(c)
  {
  }

  lemma SpatialRelationsChars(name: string, c: char)
    ensures name in SPATIAL_RELATIONS && c in name ==> IsNameChar(c)
  {
  }

  lemma SpatialDistancesChars(name: string, c: char)
    ensures name in SPATIAL_DISTANCES && c in name ==> IsNameChar(c)
  {
  }

  lemma AllowedChars(name: string, c: char)
    ensures name in ALLOWED_FUNCTIONS && c in name ==> IsNameChar(c)
  {
    if name in STRING_FUNCTIONS {
      StringFunctionsChars(name, c);
    } else if name in NUMERIC_AND_DATE_FUNCTIONS {
      NumericAndDateFunctionsChars(name, c);
    } else if name in SPATIAL_MEASURES {
      SpatialMeasuresChars(name, c);
    } else if name in SPATIAL_COORDINATES {
      SpatialCoordinatesChars(name, c);
    } else if name in SPATIAL_CONVERSIONS {
      SpatialConversionsChars(name, c);
    } else if name in SPATIAL_RELATIONS {
      SpatialRelationsChars(name, c);
    } else {
      SpatialDistancesChars(name, c);
    }
  }

  lemma TextNamesAreNamed()
    ensures "" !in STRING_FUNCTIONS && "" !in NUMERIC_AND_DATE_FUNCTIONS
  {
  }

  lemma SpatialNamesAreNamed()
    ensures "" !in SPATIAL_MEASURES && "" !in SPATIAL_COORDINATES && "" !in SPATIAL_CONVERSIONS
    ensures "" !in SPATIAL_RELATIONS && "" !in SPATIAL_DISTANCES
  {
  }

  /** Every name a call may use is a plain identifier, in whatever case it is written. */
  lemma AllowedIsPlain(name: string)
    ensures IsAllowedFunction(name) ==> IsPlainIdentifier(name)
  {
    if IsAllowedFunction(name) {
      var f :| f in ALLOWED_FUNCTIONS && Lowered(f) == Lowered(name);
      TextNamesAreNamed();
      SpatialNamesAreNamed();
      forall i | 0 <= i < |f| ensures IsNameChar(f[i]) {
        AllowedChars(f, f[i]);
      }
      NamedIsPlain(f);
      CaseKeepsPlain(f, name);
    }
  }

  lemma NamedIsPlain(name: string)
    requires name != [] && forall i :: 0 <= i < |name| ==> IsNameChar(name[i])
    ensures IsPlainIdentifier(name)
  {
    assert IsNameChar(name[0]);
  }

  /** For the actual allowlist: valid calls survive printing and parsing, and accepted text is a valid call. */
  lemma AllowedCallsRoundTrip(call: FunctionCall, text: string)
    ensures ValidCall(IsAllowedFunction, call) ==> Parse(IsAllowedFunction, Print(call)) == Ok(Some(call))
    ensures Parse(IsAllowedFunction, text) == Ok(Some(call)) ==> ValidCall(IsAllowedFunction, call)
  {
    forall name | IsAllowedFunction(name) ensures IsPlainIdentifier(name) {
      AllowedIsPlain(name);
    }
    if ValidCall(IsAllowedFunction, call) {
      ParsePrint(IsAllowedFunction, call);
    }
    AcceptedCallsReparse(IsAllowedFunction, text, call);
  }
}
