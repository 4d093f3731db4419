/** The fixed vocabulary of the record-builder processor: the accepted nullable
    annotation names, the presence-bitmap thresholds, the mask field name and
    the method-name prefixes. */
module Constants {

  // The seven accepted nullable annotations, in the order the processor tests them.
  const JspecifyNullable: string := "org.jspecify.annotations.Nullable"
  const JavaxNullable: string := "javax.annotation.Nullable"
  const JakartaNullable: string := "jakarta.annotation.Nullable"
  const JetbrainsNullable: string := "org.jetbrains.annotations.Nullable"
  const AndroidxNullable: string := "androidx.annotation.Nullable"
  const CheckerFrameworkNullable: string := "org.checkerframework.checker.nullness.qual.Nullable"
  const FindbugsNullable: string := "edu.umd.cs.findbugs.annotations.Nullable"

  const NullableAnnotationNames: seq<string> :=
    [JspecifyNullable, JavaxNullable, JakartaNullable, JetbrainsNullable,
     AndroidxNullable, CheckerFrameworkNullable, FindbugsNullable]

  // Bitmap thresholds
  const IntBitmapThreshold: nat := 32
  const LongBitmapThreshold: nat := 64
  const BitsPerLong: nat := 64

  /** The single presence-mask field, whatever its representation. */
  const PresenceMaskField: string := "_presenceMask0_"

  // Method prefixes kept as named constants ...
  const SetPrefix: string := "set"
  const GetPrefix: string := "get"
  const ClearPrefix: string := "clear"
  const HasPrefix: string := "has"
  // ... and the ones the processor writes out literally.
  const AddPrefix: string := "add"
  const AddAllPrefix: string := "addAll"
  const PutPrefix: string := "put"
  const PutAllPrefix: string := "putAll"

  /** Suffix appended to the record's simple name to name its builder. */
  const BuilderSuffix: string := "Builder"

  /** `q` is a qualified name whose last segment is `simple`. */
  predicate HasSimpleName(q: string, simple: string)
  {
    |q| > |simple| && q[|q| - |simple| - 1] == '.' && q[|q| - |simple|..] == simple && '.' !in simple
  }

  lemma ThresholdsOrdered()
    ensures 0 < IntBitmapThreshold < LongBitmapThreshold == BitsPerLong
  {
  }

  /** The seven names are pairwise distinct. */
  lemma NullableNamesDistinct()
    ensures |NullableAnnotationNames| == 7
    ensures forall i, j :: 0 <= i < j < |NullableAnnotationNames| ==>
              NullableAnnotationNames[i] != NullableAnnotationNames[j]
  {
  }

  /** Every accepted name has simple name `Nullable`. */
  lemma NullableNamesSimple()
    ensures forall i :: 0 <= i < |NullableAnnotationNames| ==>
              HasSimpleName(NullableAnnotationNames[i], "Nullable")
  {
    assert HasSimpleName(JspecifyNullable, "Nullable");
    assert HasSimpleName(JavaxNullable, "Nullable");
    assert HasSimpleName(JakartaNullable, "Nullable");
    assert HasSimpleName(JetbrainsNullable, "Nullable");
    assert HasSimpleName(AndroidxNullable, "Nullable");
    assert HasSimpleName(CheckerFrameworkNullable, "Nullable");
    assert HasSimpleName(FindbugsNullable, "Nullable");
  }

  /** The four prefixes of Constants and the four literal ones are eight distinct words. */
  lemma PrefixesDistinct()
    ensures |{SetPrefix, GetPrefix, ClearPrefix, HasPrefix, AddPrefix, AddAllPrefix, PutPrefix, PutAllPrefix}| == 8
  {
  }
}
