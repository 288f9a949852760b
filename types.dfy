/** The record shapes of the portal: agreements, their documents, partners
    and the summary counters. */
module Types {
  import opened Seqs

  /** The closed set of agreement kinds, with the labels the screens show and
      the filters compare against. */
  datatype AgreementType = FrameworkAgreement | Convention | Cooperation

  function TypeLabel(t: AgreementType): string {
    match t
    case FrameworkAgreement => "Accord cadre"
    case Convention => "Convention"
    case Cooperation => "Coopération"
  }

  /** The closed set of agreement statuses. */
  datatype Status = Active | Expired | TacitRenewal

  function StatusLabel(s: Status): string {
    match s
    case Active => "En cours"
    case Expired => "Expiré"
    case TacitRenewal => "Reconduction tacite"
  }

  datatype DocumentKind = Pdf | Docx | Xlsx

  datatype Document = Document(id: string, name: string, kind: DocumentKind, url: string, size: string)

  /** One cooperation agreement. Dates are ISO strings, as stored. */
  datatype Agreement = Agreement(
    id: string,
    title: string,
    kind: AgreementType,
    domain: string,
    country: string,
    countryCode: string,
    startDate: string,
    endDate: string,
    status: Status,
    signatureDate: string,
    partners: seq<string>,
    documents: seq<Document>,
    description: Option<string>)

  /** One partner country. Coordinates are kept as opaque decimal values; no
      arithmetic is done on them. */
  datatype Partner = Partner(
    id: string,
    name: string,
    country: string,
    countryCode: string,
    latitude: real,
    longitude: real,
    agreementsCount: int,
    flag: string)

  datatype Statistics = Statistics(totalVisits: int, activeAgreements: int, activePartners: int, recentDocuments: int)

  /** Distinct kinds and distinct statuses have distinct labels, so comparing
      labels is comparing the enumerations. */
  lemma LabelsInjective(t: AgreementType, u: AgreementType, s: Status, v: Status)
    ensures TypeLabel(t) == TypeLabel(u) <==> t == u
    ensures StatusLabel(s) == StatusLabel(v) <==> s == v
  {
  }
}
