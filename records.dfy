/** The persisted document of the planning client and the records it holds. */
module Records {

  datatype Option<+T> = None | Some(value: T)

  /** A list entry as the store keeps it: the id and creation timestamp the
      store stamps on it, and the fields the caller supplied. */
  datatype Stamped<+T> = Stamped(id: int, createdAt: string, fields: T)

  datatype WillFields = WillFields(
    title: string,
    assets: string,
    beneficiaries: string,
    special: string)

  /** `category` is the raw value of the category selector. */
  datatype BelongingFields = BelongingFields(
    name: string,
    category: string,
    location: string,
    recipient: string,
    description: string)

  /** `timing` is the raw value of the timing selector; `date` is kept whatever the timing. */
  datatype LetterFields = LetterFields(
    recipient: string,
    title: string,
    content: string,
    timing: string,
    date: string)

  type Will = Stamped<WillFields>
  type Belonging = Stamped<BelongingFields>
  type Letter = Stamped<LetterFields>

  datatype FuneralPlan = FuneralPlan(
    funeralType: string,
    music: string,
    atmosphere: string,
    host: string,
    guests: string,
    dress: string,
    special: string)

  datatype MedicalDirective = MedicalDirective(
    cpr: bool,
    intubation: bool,
    feedingTube: bool,
    dialysis: bool,
    treatmentPreference: string,
    finalPlace: string,
    painManagement: string,
    healthcareProxy: string,
    proxyContact: string,
    notes: string)

  /** The pair the life-expectancy getter hands out. Both parts are the raw
      strings the form supplied; `None` is the source's `null`. */
  datatype LifeExpectancy = LifeExpectancy(birthDate: Option<string>, lifeExpectancy: Option<string>)

  /** The whole persisted document: three ordered record lists and three singleton slots. */
  datatype Document = Document(
    lifeExpectancy: Option<string>,
    birthDate: Option<string>,
    wills: seq<Will>,
    belongings: seq<Belonging>,
    funeralPlan: Option<FuneralPlan>,
    letters: seq<Letter>,
    medicalDirective: Option<MedicalDirective>)

  /** The document a first start sees: every slot unset, every list empty. */
  function DefaultDocument(): Document {
    Document(None, None, [], [], None, [], None)
  }
}
