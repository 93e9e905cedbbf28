/** The raw rows of the symptom data set, as the CSV loader hands them over:
    one object per row whose keys are the header's column names and whose
    values are the cell texts. */
module Records {

  /** The value of `item.Column` in JavaScript: the cell text when the row has
      that column, `undefined` when it does not. */
  datatype Field = Text(text: string) | Undefined

  /** One row of the data set, keyed by column name. */
  datatype RawRecord = RawRecord(cells: map<string, string>) {

    /** Property access `item[column]`. */
    function Get(column: string): (f: Field)
      ensures f.Text? <==> column in cells
      ensures f.Text? ==> f.text == cells[column]
    {
      if column in cells then Text(cells[column]) else Undefined
    }
  }

  /** The column holding the severity class of a row. */
  const SeverityColumn: string := "Severity"

  /** The fourteen indicator columns, in the order they make up a feature vector. */
  const FeatureColumns: seq<string> := [
    "Fever", "Tiredness", "DryCough", "DifficultyinBreathing",
    "SoreThroat", "NoneSymptom", "Pains", "NasalCongestion",
    "RunnyNose", "Diarrhea", "NoneExperiencing", "ContactDontKnow",
    "ContactNo", "ContactYes"
  ]

  /** Number of entries in a feature vector. */
  const FeatureCount: nat := |FeatureColumns|
}
