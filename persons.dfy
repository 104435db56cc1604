/**
 * The person record that the add parser and the person storage adapter build. `Person` itself is
 * not part of this model's sources: its fields are the ones those two callers pass, and it is
 * compared field by field.
 */
module Persons {
  import Name
  import Phone
  import PersonIncome
  import MedicalInfo
  import opened Notes

  datatype Person = Person(
    name: Name.Name,
    phone: Phone.Phone,
    email: string,
    address: string,
    income: PersonIncome.Income,
    medicalInfo: MedicalInfo.MedicalInfo,
    tags: set<string>,
    notes: seq<Note>)

  /** The seven-argument constructor used by the add parser: the person starts with no notes. */
  function NewPerson(name: Name.Name, phone: Phone.Phone, email: string, address: string,
                     income: PersonIncome.Income, medicalInfo: MedicalInfo.MedicalInfo,
                     tags: set<string>): (p: Person)
    ensures p.notes == []
    ensures p.name == name && p.phone == phone && p.email == email && p.address == address
    ensures p.income == income && p.medicalInfo == medicalInfo && p.tags == tags
  {
    Person(name, phone, email, address, income, medicalInfo, tags, [])
  }
}
