/** The reference table (a pandas DataFrame): one `ID` and one `Diagnosis` per
    row, and named numeric attribute columns holding one value per row. */
module Frame {

  datatype Table = Table(ids: seq<int>, diagnoses: seq<string>, columns: map<string, seq<real>>) {

    /** Every column has one entry per row. */
    predicate Valid() {
      && |diagnoses| == |ids|
      && forall a :: a in columns ==> |columns[a]| == |ids|
    }

    function Rows(): nat {
      |ids|
    }
  }
}
